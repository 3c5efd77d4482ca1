/** `bulk_migrate_backend`: one partitioning loop, then up to three UPDATE statements. */
module PlacementMigration {
  import opened Common
  import opened PlacementTable

  // ---- The statements -------------------------------------------------------

  function MoveStage(t: Table, move: set<PlacementId>, target: NodeId): Table {
    map i | i in t :: if i in move then Moved(t[i], target) else t[i]
  }

  predicate Matches(p: Placement, sources: map<KeyId, Placement>, target: NodeId) {
    p.backend == target && p.key in sources
  }

  /** UPDATE ... FROM src: target rows take over from the source row of their key. */
  function MergeStage(t: Table, sources: map<KeyId, Placement>, target: NodeId): Table {
    map i | i in t :: if Matches(t[i], sources, target) then Merged(t[i], sources[t[i].key]) else t[i]
  }

  function RetireStage(t: Table, merge: set<PlacementId>): Table {
    map i | i in t :: if i in merge then t[i].(active := false) else t[i]
  }

  // ---- The partition ---------------------------------------------------------

  ghost predicate Partition(t: Table, ids: set<PlacementId>, target: NodeId, move: set<PlacementId>, merge: set<PlacementId>) {
    && (forall i :: i in move <==> Moves(t, ids, target, i))
    && (forall i :: i in merge <==> exists j :: MergesInto(t, ids, target, i, j))
  }

  /** For each merged key some source row of it: the one the join happens to use. */
  ghost predicate SourcesOf(t: Table, merge: set<PlacementId>, sources: map<KeyId, Placement>) {
    && (forall i :: i in merge ==> i in t && t[i].key in sources)
    && (forall k :: k in sources ==> exists i :: i in merge && i in t && t[i].key == k && sources[k] == t[i])
  }

  lemma PartitionCovers(t: Table, ids: set<PlacementId>, target: NodeId, move: set<PlacementId>, merge: set<PlacementId>)
    requires UniqueRows(t) && Partition(t, ids, target, move, merge)
    ensures move !! merge
    ensures move + merge == Rerouted(t, ids, target)
  {
    forall i
      ensures i in move + merge <==> i in Rerouted(t, ids, target)
      ensures i in merge ==> i !in move
    {
      if i in Rerouted(t, ids, target) && OnTarget(t, t[i].key, target) {
        var j :| j in t && Sits(t[j], t[i].key, target);
        assert MergesInto(t, ids, target, i, j);
      }
      if i in merge {
        var j :| MergesInto(t, ids, target, i, j);
        assert OnTarget(t, t[i].key, target);
      }
      if i in move {
        assert i in t && (t[i].backend == target ==> Sits(t[i], t[i].key, target));
      }
    }
  }

  /** The second statement sees the rows the first one moved, and still picks exactly the merge targets. */
  lemma MergeStageTargets(t: Table, ids: set<PlacementId>, target: NodeId, move: set<PlacementId>,
                          merge: set<PlacementId>, sources: map<KeyId, Placement>, i: PlacementId)
    requires UniqueRows(t)
    requires Partition(t, ids, target, move, merge) && SourcesOf(t, merge, sources)
    requires i in t
    ensures Matches(MoveStage(t, move, target)[i], sources, target) <==> exists j :: MergesInto(t, ids, target, j, i)
    ensures (exists j :: MergesInto(t, ids, target, j, i)) ==>
              && i !in move && t[i].key in sources
              && exists j :: MergesInto(t, ids, target, j, i) && sources[t[i].key] == t[j]
  {
    var p := MoveStage(t, move, target)[i];
    if Matches(p, sources, target) {
      var j :| j in merge && j in t && t[j].key == p.key;
      var k :| MergesInto(t, ids, target, j, k);
      assert OnTarget(t, p.key, target) by { assert Sits(t[k], p.key, target); }
      assert k == i;
    }
    if j :| MergesInto(t, ids, target, j, i) {
      assert OnTarget(t, t[i].key, target);
      assert j in merge;
      var x :| x in merge && x in t && t[x].key == t[i].key && sources[t[i].key] == t[x];
      var y :| MergesInto(t, ids, target, x, y);
      assert y == i;
    }
  }

  /** The three statements together are a migration, whatever was selected. */
  lemma StagesMigrate(t: Table, ids: set<PlacementId>, target: NodeId, move: set<PlacementId>,
                      merge: set<PlacementId>, sources: map<KeyId, Placement>)
    requires UniqueRows(t)
    requires Partition(t, ids, target, move, merge) && SourcesOf(t, merge, sources)
    ensures IsMigration(t, ids, target, RetireStage(MergeStage(MoveStage(t, move, target), sources, target), merge))
  {
    var moved := MoveStage(t, move, target);
    var merged := MergeStage(moved, sources, target);
    forall i | i in t
      ensures MayBecome(t, ids, target, i, RetireStage(merged, merge)[i])
    {
      MergeStageTargets(t, ids, target, move, merge, sources, i);
      if j :| MergesInto(t, ids, target, j, i) {
        assert t[i].backend == target;
        assert i !in merge;
      }
    }
  }

  /** Each merge source has its own target row. */
  lemma MergedRowsCount(t: Table, ids: set<PlacementId>, target: NodeId, move: set<PlacementId>,
                        merge: set<PlacementId>, merged: set<PlacementId>)
    requires UniqueRows(t) && OneRowPerKey(t, ids)
    requires Partition(t, ids, target, move, merge)
    requires forall j :: j in merged <==> exists i :: MergesInto(t, ids, target, i, j)
    ensures |merged| == |merge|
  {
    var f := map i | i in merge :: MergeTarget(t, ids, target, i);
    forall i | i in merge ensures MergesInto(t, ids, target, i, f[i]) && f[i] in merged {
    }
    forall j | j in merged ensures j in f.Values {
      var i :| MergesInto(t, ids, target, i, j);
      assert i in merge && MergesInto(t, ids, target, i, f[i]);
    }
    assert f.Keys == merge && f.Values == merged;
    BijectionSize(f);
  }

  ghost function MergeTarget(t: Table, ids: set<PlacementId>, target: NodeId, i: PlacementId): PlacementId {
    if j: PlacementId :| MergesInto(t, ids, target, i, j) then j else i
  }

  // ---- The dictionaries built along the way --------------------------------------

  /** `target_by_key`: the row each key already has on the target. */
  function TargetByKey(t: Table, target: NodeId): map<KeyId, PlacementId>
    requires UniqueRows(t)
  {
    map j | j in t && t[j].backend == target :: t[j].key := j
  }

  /** The join's choice: the last listed source row of each key. */
  function SourceByKey(t: Table, merge: seq<PlacementId>): map<KeyId, Placement>
    requires forall k :: 0 <= k < |merge| ==> merge[k] in t
  {
    if merge == [] then map[]
    else
      var n := |merge| - 1;
      SourceByKey(t, merge[..n])[t[merge[n]].key := t[merge[n]]]
  }

  lemma {:induction false} SourceByKeyChooses(t: Table, merge: seq<PlacementId>)
    requires forall k :: 0 <= k < |merge| ==> merge[k] in t
    ensures SourcesOf(t, Elements(merge), SourceByKey(t, merge))
    decreases |merge|
  {
    if merge != [] {
      var n := |merge| - 1;
      var init := merge[..n];
      SourceByKeyChooses(t, init);
      assert merge == init + [merge[n]];
      assert Elements(merge) == Elements(init) + {merge[n]};
      var before, sources := SourceByKey(t, init), SourceByKey(t, merge);
      forall k | k in sources ensures exists i :: i in Elements(merge) && i in t && t[i].key == k && sources[k] == t[i] {
        if k == t[merge[n]].key {
          var i := merge[n];
          assert i in Elements(merge) && i in t && t[i].key == k && sources[k] == t[i];
        } else {
          var i :| i in Elements(init) && i in t && t[i].key == k && before[k] == t[i];
          assert i in Elements(merge);
        }
      }
    }
  }

  /** The source rows locked by SELECT ... FOR UPDATE. */
  function ActiveAmong(t: Table, ids: set<PlacementId>): set<PlacementId> {
    set i | i in ids && i in t && t[i].active
  }

  /** Rows without an entry in `target_by_key` move; rows whose entry is another row merge. */
  ghost predicate SplitBy(t: Table, sources: set<PlacementId>, targetByKey: map<KeyId, PlacementId>,
                          move: set<PlacementId>, merge: set<PlacementId>)
    requires forall i :: i in sources ==> i in t
  {
    && move == (set i | i in sources && t[i].key !in targetByKey)
    && merge == (set i | i in sources && t[i].key in targetByKey && targetByKey[t[i].key] != i)
  }

  lemma SplitPartitions(t: Table, ids: set<PlacementId>, target: NodeId, move: set<PlacementId>, merge: set<PlacementId>)
    requires UniqueRows(t)
    requires SplitBy(t, ActiveAmong(t, ids), TargetByKey(t, target), move, merge)
    ensures Partition(t, ids, target, move, merge)
  {
    var byKey := TargetByKey(t, target);
    forall i | i in ActiveAmong(t, ids)
      ensures t[i].key in byKey <==> OnTarget(t, t[i].key, target)
    {
    }
    forall i | i in merge ensures exists j :: MergesInto(t, ids, target, i, j) {
      assert MergesInto(t, ids, target, i, byKey[t[i].key]);
    }
    forall i, j | MergesInto(t, ids, target, i, j) ensures i in merge {
      assert Selected(t, ids, i);
      assert byKey[t[i].key] == j;
    }
  }

  /** The RETURNING rows of the second statement. */
  function MergedRows(t: Table, move: set<PlacementId>, sources: map<KeyId, Placement>, target: NodeId): set<PlacementId> {
    var moved := MoveStage(t, move, target);
    set j | j in moved && Matches(moved[j], sources, target)
  }

  lemma MergedRowsAreTargets(t: Table, ids: set<PlacementId>, target: NodeId, move: set<PlacementId>,
                             merge: set<PlacementId>, sources: map<KeyId, Placement>)
    requires UniqueRows(t)
    requires Partition(t, ids, target, move, merge) && SourcesOf(t, merge, sources)
    ensures forall j :: j in MergedRows(t, move, sources, target) <==> exists i :: MergesInto(t, ids, target, i, j)
  {
    forall j ensures j in MergedRows(t, move, sources, target) <==> exists i :: MergesInto(t, ids, target, i, j) {
      if j in t {
        MergeStageTargets(t, ids, target, move, merge, sources, j);
      }
    }
  }

  lemma MovedOrMergedCarry(t: Table, ids: set<PlacementId>, target: NodeId, move: set<PlacementId>,
                           merge: set<PlacementId>, merged: set<PlacementId>)
    requires Partition(t, ids, target, move, merge)
    requires forall j :: j in merged <==> exists i :: MergesInto(t, ids, target, i, j)
    ensures move !! merged
    ensures move + merged == Carriers(t, ids, target)
  {
    forall j | j in merged ensures j !in move {
      var i :| MergesInto(t, ids, target, i, j);
      assert OnTarget(t, t[j].key, target);
    }
    forall c ensures c in move + merged <==> c in Carriers(t, ids, target) {
      if c in move { assert Carries(t, ids, target, c, c); }
      if c in merged {
        var i :| MergesInto(t, ids, target, i, c);
        assert Carries(t, ids, target, i, c);
      }
    }
  }

  /** What the three statements achieve from a given partition. */
  ghost predicate Planned(t: Table, ids: set<PlacementId>, target: NodeId, move: seq<PlacementId>, merge: seq<PlacementId>)
    requires forall k :: 0 <= k < |merge| ==> merge[k] in t
  {
    var sources := SourceByKey(t, merge);
    var merged := MergedRows(t, Elements(move), sources, target);
    && IsMigration(t, ids, target,
                   RetireStage(MergeStage(MoveStage(t, Elements(move), target), sources, target), Elements(merge)))
    && Elements(move) !! merged
    && Elements(move) + merged == Carriers(t, ids, target)
    && (OneRowPerKey(t, ids) ==> |Carriers(t, ids, target)| == |Rerouted(t, ids, target)|)
  }

  /** The partitioning loop leads to a plan that migrates. */
  lemma MigrationPlan(t: Table, ids: set<PlacementId>, target: NodeId, move: seq<PlacementId>, merge: seq<PlacementId>)
    requires UniqueRows(t)
    requires SplitBy(t, ActiveAmong(t, ids), TargetByKey(t, target), Elements(move), Elements(merge))
    ensures forall k :: 0 <= k < |merge| ==> merge[k] in t
    ensures Planned(t, ids, target, move, merge)
  {
    hide IsMigration, Carriers, MergedRows;
    SplitPartitions(t, ids, target, Elements(move), Elements(merge));
    forall k | 0 <= k < |merge| ensures merge[k] in t {
      assert merge[k] in Elements(merge);
    }
    var sources := SourceByKey(t, merge);
    SourceByKeyChooses(t, merge);
    var merged := MergedRows(t, Elements(move), sources, target);
    StagesMigrate(t, ids, target, Elements(move), Elements(merge), sources);
    MergedRowsAreTargets(t, ids, target, Elements(move), Elements(merge), sources);
    MovedOrMergedCarry(t, ids, target, Elements(move), Elements(merge), merged);
    if OneRowPerKey(t, ids) {
      MergedRowsCount(t, ids, target, Elements(move), Elements(merge), merged);
      PartitionCovers(t, ids, target, Elements(move), Elements(merge));
      assert |Elements(move) + merged| == |Elements(move)| + |merged|;
      assert |Elements(move) + Elements(merge)| == |Elements(move)| + |Elements(merge)|;
    }
  }
}
