/**
  The `user_placement` table: which backend node serves which key, what the
  control plane wants there and what the node last acknowledged.

  Every writer of the table is given here as a function from table to table;
  PlacementRepository holds the methods that carry them out.
 */
module PlacementTable {
  import opened Common

  type PlacementId = int
  type KeyId = int
  type NodeId = int
  type Time = int

  datatype DesiredState = Active | Inactive
  datatype AppliedState = Pending | Applied | Error

  datatype Placement = Placement(
    key: KeyId,
    backend: NodeId,
    desired: DesiredState,
    applied: AppliedState,
    opVersion: nat,
    appliedVersion: nat,
    sticky: Option<Time>,
    active: bool)

  type Table = map<PlacementId, Placement>

  /** What a node sends back after acting on a command. */
  datatype Report = Report(node: NodeId, placement: PlacementId, version: nat, state: AppliedState)

  /** The unique constraint on (key, backend), over active and inactive rows alike. */
  ghost predicate UniqueRows(t: Table) {
    forall i, j :: i in t && j in t && t[i].key == t[j].key && t[i].backend == t[j].backend ==> i == j
  }

  /** The check constraints on the two version columns. */
  ghost predicate VersionsOrdered(t: Table) {
    forall i :: i in t ==> 1 <= t[i].opVersion && t[i].appliedVersion <= t[i].opVersion
  }

  predicate Sits(p: Placement, key: KeyId, node: NodeId) {
    p.key == key && p.backend == node
  }

  /** An active row the control plane wants served. */
  predicate Serving(p: Placement) {
    p.active && p.desired == Active
  }

  // ---- UPDATE statements -------------------------------------------------

  /** Every new instruction raises the version and forgets the acknowledgement. */
  function Raise(p: Placement): Placement {
    p.(applied := Pending, opVersion := p.opVersion + 1)
  }

  function Requeue(t: Table, ids: set<PlacementId>): Table {
    map i | i in t :: if i in ids then Raise(t[i]) else t[i]
  }

  function SetDesired(t: Table, ids: set<PlacementId>, d: DesiredState): Table {
    map i | i in t :: if i in ids then Raise(t[i]).(desired := d) else t[i]
  }

  /** The rebalancer's own statement raises the version but leaves `applied_state` as it was. */
  function Withdraw(t: Table, ids: set<PlacementId>): Table {
    map i | i in t ::
      if i in ids then t[i].(desired := Inactive, opVersion := t[i].opVersion + 1) else t[i]
  }

  /** INSERT ... ON CONFLICT (key, backend) DO UPDATE; `id` is used only when a row is inserted. */
  ghost function Upsert(t: Table, id: PlacementId, key: KeyId, node: NodeId,
                        d: DesiredState, sticky: Option<Time>): Table
  {
    if j :| j in t && Sits(t[j], key, node) then
      t[j := Raise(t[j]).(desired := d, sticky := sticky, active := true)]
    else
      t[id := Placement(key, node, d, Pending, 1, 0, sticky, true)]
  }

  /** A multi-row upsert of distinct pairs acts on each pair by itself. */
  ghost function UpsertAll(t: Table, ids: seq<PlacementId>, pairs: seq<(KeyId, NodeId)>,
                           d: DesiredState, sticky: Option<Time>): Table
    requires |ids| == |pairs|
    decreases |pairs|
  {
    if pairs == [] then t
    else
      var n := |pairs| - 1;
      Upsert(UpsertAll(t, ids[..n], pairs[..n], d, sticky), ids[n], pairs[n].0, pairs[n].1, d, sticky)
  }

  // ---- Reports -----------------------------------------------------------

  /** A report is accepted only on an exact version and backend match. */
  predicate Lands(t: Table, r: Report) {
    && r.placement in t
    && t[r.placement].opVersion == r.version
    && t[r.placement].backend == r.node
  }

  function Land(t: Table, r: Report): Table {
    if Lands(t, r) then
      t[r.placement := t[r.placement].(applied := r.state, appliedVersion := r.version)]
    else t
  }

  function LandAll(t: Table, rs: seq<Report>): Table {
    if rs == [] then t else LandAll(Land(t, rs[0]), rs[1..])
  }

  // ---- Bulk migration ----------------------------------------------------

  predicate Selected(t: Table, ids: set<PlacementId>, i: PlacementId) {
    i in ids && i in t && t[i].active
  }

  /** No two selected rows belong to one key: true whenever they all sit on one node. */
  ghost predicate OneRowPerKey(t: Table, ids: set<PlacementId>) {
    forall i, j :: Selected(t, ids, i) && Selected(t, ids, j) && t[i].key == t[j].key ==> i == j
  }

  ghost predicate OnTarget(t: Table, key: KeyId, target: NodeId) {
    exists j :: j in t && Sits(t[j], key, target)
  }

  /** A selected row whose key has no row on the target is moved there. */
  ghost predicate Moves(t: Table, ids: set<PlacementId>, target: NodeId, i: PlacementId) {
    Selected(t, ids, i) && !OnTarget(t, t[i].key, target)
  }

  /** Selected row `i` is folded into row `j`, which its key already has on the target. */
  predicate MergesInto(t: Table, ids: set<PlacementId>, target: NodeId, i: PlacementId, j: PlacementId) {
    Selected(t, ids, i) && j in t && i != j && Sits(t[j], t[i].key, target)
  }

  function Moved(p: Placement, target: NodeId): Placement {
    Raise(p).(backend := target)
  }

  function Merged(p: Placement, src: Placement): Placement {
    Raise(p).(desired := src.desired, sticky := src.sticky, active := true)
  }

  ghost function MigratedRow(t: Table, ids: set<PlacementId>, target: NodeId, i: PlacementId): Placement
    requires i in t
  {
    if Moves(t, ids, target, i) then Moved(t[i], target)
    else if j :| MergesInto(t, ids, target, j, i) then Merged(t[i], t[j])
    else if exists j :: MergesInto(t, ids, target, i, j) then t[i].(active := false)
    else t[i]
  }

  ghost function Migrate(t: Table, ids: set<PlacementId>, target: NodeId): Table {
    map i | i in t :: MigratedRow(t, ids, target, i)
  }

  /** What the statements may make of row `i`; of several rows merging into it, the database takes any one. */
  ghost predicate MayBecome(t: Table, ids: set<PlacementId>, target: NodeId, i: PlacementId, q: Placement)
    requires i in t
  {
    if Moves(t, ids, target, i) then q == Moved(t[i], target)
    else if exists j :: MergesInto(t, ids, target, j, i) then
      exists j :: MergesInto(t, ids, target, j, i) && q == Merged(t[i], t[j])
    else if exists j :: MergesInto(t, ids, target, i, j) then q == t[i].(active := false)
    else q == t[i]
  }

  /** A migration of any selection; with one row per key there is only one, `Migrate`. */
  ghost predicate IsMigration(t: Table, ids: set<PlacementId>, target: NodeId, t': Table) {
    t'.Keys == t.Keys && forall i :: i in t ==> MayBecome(t, ids, target, i, t'[i])
  }

  /** Two rows of one key would be moved to the target. */
  ghost predicate Collides(t: Table, ids: set<PlacementId>, target: NodeId) {
    exists i, j :: i != j && Moves(t, ids, target, i) && Moves(t, ids, target, j) && t[i].key == t[j].key
  }

  /** The row through which selected row `i` lives on after the migration. */
  ghost predicate Carries(t: Table, ids: set<PlacementId>, target: NodeId, i: PlacementId, c: PlacementId) {
    (Moves(t, ids, target, i) && c == i) || MergesInto(t, ids, target, i, c)
  }

  /** The rows on the target that a migration leaves waiting for a command. */
  ghost function Carriers(t: Table, ids: set<PlacementId>, target: NodeId): set<PlacementId> {
    set c | c in t && exists i :: Carries(t, ids, target, i, c)
  }

  /** The rows a migration has to bring over. */
  function Rerouted(t: Table, ids: set<PlacementId>, target: NodeId): set<PlacementId> {
    set i | i in t && Selected(t, ids, i) && t[i].backend != target
  }

  // ---- Properties of the table functions ----------------------------------

  lemma SetDesiredKeepsTable(t: Table, ids: set<PlacementId>, d: DesiredState)
    requires UniqueRows(t) && VersionsOrdered(t)
    ensures UniqueRows(SetDesired(t, ids, d)) && VersionsOrdered(SetDesired(t, ids, d))
  {
  }

  /** An upsert writes exactly one row: the key's row on the node if there is one, else a new one. */
  lemma UpsertWrites(t: Table, id: PlacementId, key: KeyId, node: NodeId, d: DesiredState, sticky: Option<Time>)
    returns (c: PlacementId)
    requires id !in t
    ensures var t' := Upsert(t, id, key, node, d, sticky);
            && c in t' && t' == t[c := t'[c]]
            && t'[c] == Placement(key, node, d, Pending, (if c in t then t[c].opVersion else 0) + 1,
                                  if c in t then t[c].appliedVersion else 0, sticky, true)
            && (c in t ==> t[c].key == key && t[c].backend == node)
            && (c !in t ==> c == id && forall j :: j in t ==> !(t[j].key == key && t[j].backend == node))
  {
    var t' := Upsert(t, id, key, node, d, sticky);
    if exists j :: j in t && Sits(t[j], key, node) {
      c :| c in t && Sits(t[c], key, node) && t' == t[c := Raise(t[c]).(desired := d, sticky := sticky, active := true)];
      assert t'[c] == Raise(t[c]).(desired := d, sticky := sticky, active := true);
      assert t[c].key == key && t[c].backend == node;
    } else {
      c := id;
      assert t'[c] == Placement(key, node, d, Pending, 1, 0, sticky, true);
      forall j | j in t ensures !(t[j].key == key && t[j].backend == node) {
        assert !Sits(t[j], key, node);
      }
    }
  }

  lemma UpsertKeepsTable(t: Table, id: PlacementId, key: KeyId, node: NodeId, d: DesiredState, sticky: Option<Time>)
    requires UniqueRows(t) && VersionsOrdered(t)
    requires id !in t
    ensures var t' := Upsert(t, id, key, node, d, sticky);
            UniqueRows(t') && VersionsOrdered(t')
  {
  }

  lemma MigrationRow(t: Table, ids: set<PlacementId>, target: NodeId, i: PlacementId, q: Placement)
    requires i in t && MayBecome(t, ids, target, i, q)
    ensures q.key == t[i].key && q.backend == (if Moves(t, ids, target, i) then target else t[i].backend)
    ensures q.appliedVersion == t[i].appliedVersion
    ensures q.opVersion == t[i].opVersion + 1 || q == t[i].(active := q.active)
  {
  }

  /** The unique constraint rejects a migration exactly when two selected rows of one key would be moved. */
  lemma MigrationKeepsTable(t: Table, ids: set<PlacementId>, target: NodeId, t': Table)
    requires UniqueRows(t) && IsMigration(t, ids, target, t')
    ensures UniqueRows(t') <==> !Collides(t, ids, target)
    ensures VersionsOrdered(t) ==> VersionsOrdered(t')
  {
    forall i | i in t
      ensures t'[i].key == t[i].key && t'[i].backend == if Moves(t, ids, target, i) then target else t[i].backend
      ensures t'[i].appliedVersion == t[i].appliedVersion && t'[i].opVersion >= t[i].opVersion
    {
      MigrationRow(t, ids, target, i, t'[i]);
    }
    hide MayBecome, MergesInto;
    if !Collides(t, ids, target) {
      forall i, j | i in t' && j in t' && t'[i].key == t'[j].key && t'[i].backend == t'[j].backend ensures i == j {
        assert Moves(t, ids, target, i) ==> !Sits(t[j], t[i].key, target);
        assert Moves(t, ids, target, j) ==> !Sits(t[i], t[j].key, target);
      }
    } else {
      var i, j :| i != j && Moves(t, ids, target, i) && Moves(t, ids, target, j) && t[i].key == t[j].key;
      assert i in t' && j in t';
    }
  }

  /** With one row per key nothing collides and the outcome is determined. */
  lemma OneMigration(t: Table, ids: set<PlacementId>, target: NodeId, t': Table)
    requires OneRowPerKey(t, ids)
    ensures !Collides(t, ids, target)
    ensures IsMigration(t, ids, target, t') <==> t' == Migrate(t, ids, target)
  {
    forall i | i in t ensures MayBecome(t, ids, target, i, MigratedRow(t, ids, target, i)) {
    }
    if IsMigration(t, ids, target, t') {
      forall i | i in t ensures t'[i] == MigratedRow(t, ids, target, i) {
        assert MayBecome(t, ids, target, i, t'[i]);
      }
    }
  }

  /** A migration never puts two rows of a key on one node. */
  lemma MigrateKeepsUnique(t: Table, ids: set<PlacementId>, target: NodeId)
    requires UniqueRows(t) && OneRowPerKey(t, ids)
    ensures UniqueRows(Migrate(t, ids, target))
    ensures VersionsOrdered(t) ==> VersionsOrdered(Migrate(t, ids, target))
  {
    OneMigration(t, ids, target, Migrate(t, ids, target));
    MigrationKeepsTable(t, ids, target, Migrate(t, ids, target));
  }

  /**
    What a migration means for one selected row that is not yet on the target:
    exactly one row carries it on, that row is active and pending on the target
    with the desired state of the source and a raised version, and nothing
    selected stays active anywhere else.
   */
  lemma MigrateCarries(t: Table, ids: set<PlacementId>, target: NodeId, i: PlacementId)
    requires UniqueRows(t) && OneRowPerKey(t, ids)
    requires i in ids && i in t && t[i].active && t[i].backend != target
    ensures exists c :: Carries(t, ids, target, i, c)
    ensures forall c :: Carries(t, ids, target, i, c) ==>
              var t' := Migrate(t, ids, target);
              && c in t'
              && t'[c].key == t[i].key && t'[c].backend == target
              && t'[c].active && t'[c].applied == Pending
              && t'[c].desired == t[i].desired && t'[c].sticky == t[i].sticky
              && t'[c].opVersion == t[c].opVersion + 1
              && t'[c].appliedVersion == t[c].appliedVersion
              && (forall j :: j in t' && t'[j].key == t[i].key && t'[j].backend == target ==> j == c)
              && (c != i ==> t'[i] == t[i].(active := false))
    ensures Migrate(t, ids, target)[i].active ==> Migrate(t, ids, target)[i].backend == target
  {
    var t' := Migrate(t, ids, target);
    if OnTarget(t, t[i].key, target) {
      var j :| j in t && Sits(t[j], t[i].key, target);
      assert Carries(t, ids, target, i, j);
    } else {
      assert Carries(t, ids, target, i, i);
    }
    forall c | Carries(t, ids, target, i, c)
      ensures && c in t' && Sits(t'[c], t[i].key, target)
              && t'[c].active && t'[c].applied == Pending && t'[c].desired == t[i].desired
              && t'[c].opVersion == t[c].opVersion + 1
              && t'[c].appliedVersion == t[c].appliedVersion
              && (forall j :: j in t' && Sits(t'[j], t[i].key, target) ==> j == c)
              && (c != i ==> t'[i] == t[i].(active := false))
    {
      if MergesInto(t, ids, target, i, c) {
        var j :| MergesInto(t, ids, target, j, c) && t'[c] == Merged(t[c], t[j]);
        assert i == j;
      }
    }
  }

  /** Rows that are neither selected nor the target row of a selected key are left alone. */
  lemma MigrateFrame(t: Table, ids: set<PlacementId>, target: NodeId, i: PlacementId)
    requires UniqueRows(t) && i in t
    requires i !in ids || !t[i].active || t[i].backend == target
    requires t[i].backend == target ==> forall j :: j in ids && j in t && t[j].active && j != i ==> t[j].key != t[i].key
    ensures Migrate(t, ids, target)[i] == t[i]
  {
  }

  /** The carriers are the rows whose version a migration raises; all of them are active and pending on the target. */
  lemma CarriersAreRaised(t: Table, ids: set<PlacementId>, target: NodeId, t': Table, c: PlacementId)
    requires IsMigration(t, ids, target, t') && c in t
    ensures c in Carriers(t, ids, target) <==> t'[c].opVersion > t[c].opVersion
    ensures c in Carriers(t, ids, target) ==>
              t'[c].active && t'[c].applied == Pending && t'[c].backend == target && t'[c].opVersion == t[c].opVersion + 1
  {
    assert MayBecome(t, ids, target, c, t'[c]);
    if c in Carriers(t, ids, target) {
      var i :| Carries(t, ids, target, i, c);
    } else {
      assert !Carries(t, ids, target, c, c);
      forall j ensures !MergesInto(t, ids, target, j, c) {
        assert !Carries(t, ids, target, j, c);
      }
    }
  }

  /** Accepting a report leaves every instruction, and so every later match, as it was. */
  lemma LandKeepsMatches(t: Table, r: Report, q: Report)
    ensures Lands(Land(t, r), q) <==> Lands(t, q)
  {
  }
}
