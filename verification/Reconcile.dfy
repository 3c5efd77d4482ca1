/**
  The rebalancing reconciler: withdraw what is served on draining nodes, then give
  every served key a row on every healthy node, one batch per tick.
 */
module Reconcile {
  import opened Common
  import opened PlacementTable
  import opened PlacementRepository
  import opened PlacementProtocol
  import opened PlacementService

  predicate ServedOn(t: Table, key: KeyId, node: NodeId) {
    exists i :: i in t && Sits(t[i], key, node) && Serving(t[i])
  }

  function ActiveKeys(t: Table): set<KeyId> {
    set i | i in t && Serving(t[i]) :: t[i].key
  }

  /** (key, node) pairs where a served key lacks a served row on a healthy node. */
  function Missing(t: Table, healthy: set<NodeId>): set<(KeyId, NodeId)> {
    set k, n | k in ActiveKeys(t) && n in healthy && !ServedOn(t, k, n) :: (k, n)
  }

  function ServedOnAny(t: Table, nodes: set<NodeId>): set<PlacementId> {
    set i | i in t && Serving(t[i]) && t[i].backend in nodes
  }

  function WithdrawFrom(t: Table, draining: set<NodeId>): Table {
    Withdraw(t, ServedOnAny(t, draining))
  }

  /** The key has a row that is active and wanted, somewhere. */
  predicate Wanted(t: Table, key: KeyId) {
    exists i :: i in t && t[i].key == key && t[i].active && t[i].desired == Active
  }

  /** The key has a row on the node that is active and wanted. */
  predicate WantedOn(t: Table, key: KeyId, node: NodeId) {
    exists i :: i in t && t[i].key == key && t[i].backend == node && t[i].active && t[i].desired == Active
  }

  /** Which pairs are missing, in terms of the rows. */
  lemma MissingExactly(t: Table, healthy: set<NodeId>, k: KeyId, n: NodeId)
    ensures (k, n) in Missing(t, healthy) <==> n in healthy && Wanted(t, k) && !WantedOn(t, k, n)
  {
    assert ServedOn(t, k, n) <==> WantedOn(t, k, n) by {
      if i :| i in t && t[i].key == k && t[i].backend == n && t[i].active && t[i].desired == Active {
        assert Sits(t[i], k, n) && Serving(t[i]);
      }
    }
    assert k in ActiveKeys(t) <==> Wanted(t, k) by {
      if i :| i in t && t[i].key == k && t[i].active && t[i].desired == Active {
        assert Serving(t[i]);
      }
    }
  }

  /** The withdrawal turns exactly the wanted rows on draining nodes, raising their version but not their acknowledgement. */
  lemma WithdrawnExactly(t: Table, draining: set<NodeId>, i: PlacementId)
    requires i in t
    ensures i in WithdrawFrom(t, draining)
    ensures WithdrawFrom(t, draining)[i]
         == if t[i].active && t[i].desired == Active && t[i].backend in draining
            then t[i].(desired := Inactive, opVersion := t[i].opVersion + 1) else t[i]
  {
  }

  /** No row is active and wanted on one of the nodes. */
  predicate NoneWantedOn(t: Table, nodes: set<NodeId>) {
    forall i :: i in t ==> !(t[i].active && t[i].desired == Active && t[i].backend in nodes)
  }

  lemma NoneServedMeans(t: Table, nodes: set<NodeId>)
    ensures ServedOnAny(t, nodes) == {} <==> NoneWantedOn(t, nodes)
  {
    if NoneWantedOn(t, nodes) {
      assert forall i :: i !in ServedOnAny(t, nodes);
    } else {
      var i :| i in t && t[i].active && t[i].desired == Active && t[i].backend in nodes;
      assert i in ServedOnAny(t, nodes);
    }
  }

  /** Every wanted key is wanted on every healthy node. */
  ghost predicate FullyCovered(t: Table, healthy: set<NodeId>) {
    forall k, n :: Wanted(t, k) && n in healthy ==> WantedOn(t, k, n)
  }

  lemma NothingMissingMeans(t: Table, healthy: set<NodeId>)
    ensures Missing(t, healthy) == {} <==> FullyCovered(t, healthy)
  {
    if Missing(t, healthy) == {} {
      forall k, n | Wanted(t, k) && n in healthy ensures WantedOn(t, k, n) {
        MissingExactly(t, healthy, k, n);
      }
    } else {
      var p := SomeOf(Missing(t, healthy));
      MissingExactly(t, healthy, p.0, p.1);
    }
  }

  // ---- One batch -------------------------------------------------------------

  lemma UpsertServes(t: Table, id: PlacementId, key: KeyId, node: NodeId)
    requires UniqueRows(t) && id !in t
    ensures var t' := Upsert(t, id, key, node, Active, None);
            && (forall k, n :: ServedOn(t', k, n) <==> ServedOn(t, k, n) || (k, n) == (key, node))
            && ActiveKeys(t') == ActiveKeys(t) + {key}
  {
    var t' := Upsert(t, id, key, node, Active, None);
    var c :| c in t' && t' == t[c := t'[c]] && Sits(t'[c], key, node) && Serving(t'[c])
             && (c in t ==> Sits(t[c], key, node));
    forall k, n ensures ServedOn(t', k, n) <==> ServedOn(t, k, n) || (k, n) == (key, node) {
      if i :| i in t && Sits(t[i], k, n) && Serving(t[i]) {
        assert i in t' && Sits(t'[i], k, n) && Serving(t'[i]);
      }
      if i :| i in t' && Sits(t'[i], k, n) && Serving(t'[i]) {
        assert i != c ==> i in t && t[i] == t'[i];
      }
    }
    forall k ensures k in ActiveKeys(t') <==> k in ActiveKeys(t) + {key} {
      if i :| i in t && Serving(t[i]) && t[i].key == k {
        assert i in t' && Serving(t'[i]) && t'[i].key == k;
      }
    }
  }

  ghost predicate FreshIds(t: Table, newIds: seq<PlacementId>) {
    Distinct(newIds) && forall k :: 0 <= k < |newIds| ==> newIds[k] !in t
  }

  lemma {:induction false} UpsertAllKeepsTable(t: Table, newIds: seq<PlacementId>, pairs: seq<(KeyId, NodeId)>)
    requires UniqueRows(t) && VersionsOrdered(t) && |newIds| == |pairs| && FreshIds(t, newIds)
    ensures var t' := UpsertAll(t, newIds, pairs, Active, None);
            UniqueRows(t') && VersionsOrdered(t') && forall i :: i in t' ==> i in t || i in newIds
    decreases |pairs|
  {
    if pairs != [] {
      var m := |pairs| - 1;
      UpsertAllKeepsTable(t, newIds[..m], pairs[..m]);
      assert newIds[m] in newIds && newIds[m] !in newIds[..m];
      UpsertKeepsTable(UpsertAll(t, newIds[..m], pairs[..m], Active, None), newIds[m], pairs[m].0, pairs[m].1, Active, None);
    }
  }

  lemma {:induction false} UpsertAllServes(t: Table, newIds: seq<PlacementId>, pairs: seq<(KeyId, NodeId)>, k: KeyId, n: NodeId)
    requires UniqueRows(t) && VersionsOrdered(t) && |newIds| == |pairs| && FreshIds(t, newIds)
    ensures var t' := UpsertAll(t, newIds, pairs, Active, None);
            && (ServedOn(t', k, n) <==> ServedOn(t, k, n) || (k, n) in pairs)
            && (k in ActiveKeys(t') <==> k in ActiveKeys(t) || exists j :: 0 <= j < |pairs| && pairs[j].0 == k)
    decreases |pairs|
  {
    if pairs != [] {
      var m := |pairs| - 1;
      UpsertAllServes(t, newIds[..m], pairs[..m], k, n);
      UpsertAllKeepsTable(t, newIds[..m], pairs[..m]);
      assert newIds[m] in newIds && newIds[m] !in newIds[..m];
      UpsertServes(UpsertAll(t, newIds[..m], pairs[..m], Active, None), newIds[m], pairs[m].0, pairs[m].1);
      assert pairs == pairs[..m] + [pairs[m]];
      assert forall j :: 0 <= j < m ==> pairs[..m][j] == pairs[j];
    }
  }

  /** Upserting some of the missing pairs removes exactly those and makes no key active that was not. */
  lemma BatchShrinksMissing(t: Table, healthy: set<NodeId>, newIds: seq<PlacementId>, pairs: seq<(KeyId, NodeId)>)
    requires UniqueRows(t) && VersionsOrdered(t) && |newIds| == |pairs| && FreshIds(t, newIds)
    requires Distinct(pairs) && Elements(pairs) <= Missing(t, healthy)
    ensures var t' := UpsertAll(t, newIds, pairs, Active, None);
            && Missing(t', healthy) == Missing(t, healthy) - Elements(pairs)
            && |Missing(t', healthy)| == |Missing(t, healthy)| - |pairs|
            && ActiveKeys(t') == ActiveKeys(t)
  {
    var t' := UpsertAll(t, newIds, pairs, Active, None);
    forall k ensures k in ActiveKeys(t') <==> k in ActiveKeys(t) {
      UpsertAllServes(t, newIds, pairs, k, 0);
      if j :| 0 <= j < |pairs| && pairs[j].0 == k {
        assert pairs[j] in Elements(pairs);
      }
    }
    forall p: (KeyId, NodeId) ensures p in Missing(t', healthy) <==> p in Missing(t, healthy) - Elements(pairs) {
      var (k, n) := p;
      UpsertAllServes(t, newIds, pairs, k, n);
      assert p in pairs <==> p in Elements(pairs);
    }
    DistinctSize(pairs);
  }

  // ---- Ticks --------------------------------------------------------------------

  /** The pairs one tick works on: as many missing ones as the batch allows, in any order. */
  ghost predicate BatchOf(t: Table, healthy: set<NodeId>, batch: nat, newIds: seq<PlacementId>, pairs: seq<(KeyId, NodeId)>) {
    && Distinct(pairs) && Elements(pairs) <= Missing(t, healthy)
    && |pairs| == Min(batch, |Missing(t, healthy)|)
    && |newIds| == |pairs| && FreshIds(t, newIds)
  }

  /**
    One tick of the reconciler. With fewer than two healthy nodes only the withdrawal is committed;
    with nothing missing the session is closed without a commit, which undoes the withdrawal too.
   */
  ghost predicate Tick(t: Table, t': Table, healthy: set<NodeId>, draining: set<NodeId>, batch: nat) {
    var t1 := WithdrawFrom(t, draining);
    if |healthy| < 2 then t' == t1
    else if Missing(t1, healthy) == {} then t' == t
    else exists newIds, pairs ::
           BatchOf(t1, healthy, batch, newIds, pairs) && t' == UpsertAll(t1, newIds, pairs, Active, None)
  }

  lemma WithdrawIdempotent(t: Table, draining: set<NodeId>)
    ensures ServedOnAny(WithdrawFrom(t, draining), draining) == {}
    ensures ServedOnAny(t, draining) == {} ==> WithdrawFrom(t, draining) == t
  {
    var t' := WithdrawFrom(t, draining);
    assert forall i :: i in t' ==> i !in ServedOnAny(t', draining);
  }

  /** A tick never serves a draining node, and what is missing shrinks by a full batch. */
  lemma TickProgress(t: Table, t': Table, healthy: set<NodeId>, draining: set<NodeId>, batch: nat)
    requires UniqueRows(t) && VersionsOrdered(t) && healthy !! draining && |healthy| >= 2
    requires Tick(t, t', healthy, draining, batch)
    ensures UniqueRows(t') && VersionsOrdered(t')
    ensures var m := |Missing(WithdrawFrom(t, draining), healthy)|;
            |Missing(WithdrawFrom(t', draining), healthy)| == m - Min(batch, m)
    ensures Missing(WithdrawFrom(t, draining), healthy) != {} ==>
              WithdrawFrom(t', draining) == t' && ActiveKeys(t') == ActiveKeys(WithdrawFrom(t, draining))
  {
    var t1 := WithdrawFrom(t, draining);
    WithdrawIdempotent(t, draining);
    assert UniqueRows(t1) && VersionsOrdered(t1);
    if Missing(t1, healthy) != {} {
      var newIds, pairs :| BatchOf(t1, healthy, batch, newIds, pairs) && t' == UpsertAll(t1, newIds, pairs, Active, None);
      BatchShrinksMissing(t1, healthy, newIds, pairs);
      UpsertAllKeepsTable(t1, newIds, pairs);
      assert ServedOnAny(t', draining) == {} by {
        forall i | i in t' ensures i !in ServedOnAny(t', draining) {
          var k, n := t'[i].key, t'[i].backend;
          UpsertAllServes(t1, newIds, pairs, k, n);
          if Serving(t'[i]) {
            assert ServedOn(t', k, n);
            if (k, n) in pairs {
              assert (k, n) in Elements(pairs) && n in healthy;
            } else {
              var j :| j in t1 && Sits(t1[j], k, n) && Serving(t1[j]);
              assert j !in ServedOnAny(t1, draining);
            }
          }
        }
      }
      WithdrawIdempotent(t', draining);
    }
  }

  ghost predicate Ticks(ts: seq<Table>, healthy: set<NodeId>, draining: set<NodeId>, batch: nat) {
    ts != [] && forall k :: 0 <= k < |ts| - 1 ==> Tick(ts[k], ts[k + 1], healthy, draining, batch)
  }

  /**
    Convergence. With the healthy and draining nodes fixed, after k ticks exactly
    max(0, m - k * batch) pairs are missing, whichever pairs each tick picked; so
    full coverage takes ceil(m / batch) ticks, no more and no fewer.
   */
  lemma {:induction false} Convergence(ts: seq<Table>, healthy: set<NodeId>, draining: set<NodeId>, batch: nat)
    requires Ticks(ts, healthy, draining, batch) && batch >= 1
    requires UniqueRows(ts[0]) && VersionsOrdered(ts[0]) && healthy !! draining && |healthy| >= 2
    ensures var k := |ts| - 1; var m := |Missing(WithdrawFrom(ts[0], draining), healthy)|;
            && UniqueRows(ts[k]) && VersionsOrdered(ts[k])
            && |Missing(WithdrawFrom(ts[k], draining), healthy)| == Max(0, m - k * batch)
            && (m > 0 && m <= k * batch ==> Missing(ts[k], healthy) == {} && ServedOnAny(ts[k], draining) == {})
            && (m > 0 && m <= k * batch ==> FullyCovered(ts[k], healthy) && NoneWantedOn(ts[k], draining))
    decreases |ts|
  {
    var k := |ts| - 1;
    NothingMissingMeans(ts[k], healthy);
    NoneServedMeans(ts[k], draining);
    hide FullyCovered, NoneWantedOn;
    if k > 0 {
      var init := ts[..k];
      assert Ticks(init, healthy, draining, batch) by {
        forall j | 0 <= j < |init| - 1 ensures Tick(init[j], init[j + 1], healthy, draining, batch) {
          assert Tick(ts[j], ts[j + 1], healthy, draining, batch);
        }
      }
      Convergence(init, healthy, draining, batch);
      assert Tick(ts[k - 1], ts[k], healthy, draining, batch);
      TickProgress(ts[k - 1], ts[k], healthy, draining, batch);
      assert k * batch == (k - 1) * batch + batch;
      WithdrawIdempotent(ts[k], draining);
      if Missing(WithdrawFrom(ts[k - 1], draining), healthy) == {} {
        assert ts[k] == ts[k - 1];
      }
    }
  }

  /** The withdrawal reaches the database exactly when the tick also had something else to commit. */
  lemma WithdrawalCommitted(t: Table, t': Table, healthy: set<NodeId>, draining: set<NodeId>, batch: nat)
    requires UniqueRows(t) && VersionsOrdered(t) && healthy !! draining
    requires Tick(t, t', healthy, draining, batch)
    ensures NoneWantedOn(t', draining) <==>
              || |healthy| < 2
              || !FullyCovered(WithdrawFrom(t, draining), healthy)
              || NoneWantedOn(t, draining)
  {
    NoneServedMeans(t, draining);
    NoneServedMeans(t', draining);
    NothingMissingMeans(WithdrawFrom(t, draining), healthy);
    hide FullyCovered, NoneWantedOn;
    WithdrawIdempotent(t, draining);
    if |healthy| >= 2 {
      TickProgress(t, t', healthy, draining, batch);
      WithdrawIdempotent(t', draining);
    }
  }

  /** A key served on two healthy nodes and on a draining one. */
  function ServedThrice(): Table {
    map[1 := Placement(1, 1, Active, Applied, 1, 1, None, true),
        2 := Placement(1, 2, Active, Applied, 1, 1, None, true),
        3 := Placement(1, 3, Active, Applied, 1, 1, None, true)]
  }

  /** There nothing is missing, so every tick leaves the draining node served, for good. */
  lemma WithdrawalLost(t': Table, batch: nat)
    ensures var t := ServedThrice();
            && UniqueRows(t) && VersionsOrdered(t)
            && (Tick(t, t', {1, 2}, {3}, batch) <==> t' == t)
            && t[3].active && t[3].desired == Active && t[3].backend == 3
  {
    var t := ServedThrice();
    var t1 := WithdrawFrom(t, {3});
    assert t1[1] == t[1] && t1[2] == t[2] && t1[3].desired == Inactive;
    assert Sits(t1[1], 1, 1) && Serving(t1[1]) && Sits(t1[2], 1, 2) && Serving(t1[2]);
    assert ServedOn(t1, 1, 1) && ServedOn(t1, 1, 2);
    assert ActiveKeys(t1) == {1};
    assert Missing(t1, {1, 2}) == {};
  }

  // ---- The reconciler ---------------------------------------------------------------

  method FindMissingPlacements(t: Table, healthy: set<NodeId>, batch: nat) returns (pairs: seq<(KeyId, NodeId)>)
    ensures Distinct(pairs) && Elements(pairs) <= Missing(t, healthy)
    ensures |pairs| == Min(batch, |Missing(t, healthy)|)
    ensures forall p :: p in pairs ==> p.1 in healthy && Wanted(t, p.0) && !WantedOn(t, p.0, p.1)
    ensures |pairs| < batch ==> forall k, n :: n in healthy && Wanted(t, k) && !WantedOn(t, k, n) ==> (k, n) in pairs
  {
    var all := ListOf(Missing(t, healthy));
    pairs := all[..Min(batch, |all|)];
    assert forall p :: p in pairs ==> p in all && p in Elements(all);
    forall k, n { MissingExactly(t, healthy, k, n); }
    assert forall p :: p in pairs ==> p == (p.0, p.1) && p in Missing(t, healthy);
    if |pairs| < batch {
      assert pairs == all;
      assert forall p :: p in Missing(t, healthy) ==> p in Elements(all) && p in pairs;
    }
  }

  /** What the tick leaves in the outbox: the withdrawn rows and then the new ones, if it commits. */
  ghost predicate TickTells(t: Table, t': Table, healthy: set<NodeId>, draining: set<NodeId>, keys: Keys,
                            entries: set<(NodeId, NodeId)>, outbox: set<Command>, outbox': set<Command>)
  {
    var t1 := WithdrawFrom(t, draining);
    var told := EnqueueMany(outbox, Commands(t1, keys, ServedOnAny(t, draining), entries));
    if |healthy| < 2 then outbox' == told
    else if Missing(t1, healthy) == {} then outbox' == outbox
    else outbox' == EnqueueMany(told, Commands(t', keys, Touched(t1, t'), entries))
  }

  /**
    Returns how many pairs it filled. `newIds` supplies identifiers for rows the tick may insert; a
    tick that returns without a commit loses its rows and its messages alike.
   */
  method RebalanceTick(placements: UserPlacementService, healthy: set<NodeId>, draining: set<NodeId>, batchSize: int,
                       newIds: seq<PlacementId>, keys: Keys, entriesByBackend: map<NodeId, seq<NodeId>>)
    returns (created: nat)
    requires UniqueRows(placements.repo.rows) && FreshIds(placements.repo.rows, newIds) && |newIds| == Max(1, batchSize)
    modifies placements, placements.repo
    ensures Tick(old(placements.repo.rows), placements.repo.rows, healthy, draining, Max(1, batchSize))
    ensures created == if |healthy| < 2 then 0
                       else Min(Max(1, batchSize), |Missing(WithdrawFrom(old(placements.repo.rows), draining), healthy)|)
    ensures TickTells(old(placements.repo.rows), placements.repo.rows, healthy, draining, keys, EntryPairs(entriesByBackend),
                      old(placements.outbox), placements.outbox)
  {
    hide Missing, Commands, EnqueueMany, EntryPairs, UpsertAll, UniqueRows;
    var batch := Max(1, batchSize);
    var repo := placements.repo;
    var committed, sent := repo.rows, placements.outbox;
    WithdrawKeepsUnique(repo.rows, draining);
    var drained := ListOf(ServedOnAny(repo.rows, draining));
    repo.rows := WithdrawFrom(repo.rows, draining);
    ghost var t1 := repo.rows;
    EnqueueNothing(sent, t1, keys, EntryPairs(entriesByBackend));
    if drained != [] {
      placements.EnqueueForPlacementIds(drained, keys, entriesByBackend);
    }
    if |healthy| < 2 {
      return 0;
    }
    var pairs := FindMissingPlacements(repo.rows, healthy, batch);
    if pairs == [] {
      repo.rows, placements.outbox := committed, sent;
      return 0;
    }
    var used := newIds[..|pairs|];
    var ids := repo.BulkUpsertSetPending(used, pairs, Active);
    assert BatchOf(t1, healthy, batch, used, pairs);
    placements.EnqueueForPlacementIds(ids, keys, entriesByBackend);
    created := |ids|;
  }

  lemma WithdrawKeepsUnique(t: Table, draining: set<NodeId>)
    requires UniqueRows(t)
    ensures UniqueRows(WithdrawFrom(t, draining)) && WithdrawFrom(t, draining).Keys == t.Keys
  {
  }
}
