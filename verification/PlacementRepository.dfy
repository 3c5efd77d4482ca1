/** The statements issued against the placement table, one method per repository operation. */
module PlacementRepository {
  import opened Common
  import opened PlacementTable
  import opened PlacementMigration

  // ---- Which rows a statement touches --------------------------------------

  function OnNode(t: Table, node: NodeId): set<PlacementId> {
    set i | i in t && t[i].active && t[i].backend == node
  }

  function ServingOnNode(t: Table, node: NodeId): set<PlacementId> {
    set i | i in t && Serving(t[i]) && t[i].backend == node
  }

  /** Nodes on which a key has an active row, whatever its desired state. */
  function NodesOfKey(t: Table, key: KeyId): set<NodeId> {
    set i | i in t && t[i].active && t[i].key == key :: t[i].backend
  }

  /** Rows of these keys for which `d` would be news. */
  function OutOfStep(t: Table, keys: set<KeyId>, d: DesiredState): set<PlacementId> {
    set i | i in t && t[i].key in keys && t[i].active && (t[i].desired != d || t[i].applied != Pending)
  }

  /** Active rows of the key on a permitted backend. */
  function Permitted(t: Table, key: KeyId, backends: set<NodeId>, only: Option<set<NodeId>>): set<PlacementId> {
    set i | i in t && t[i].key == key && t[i].active && t[i].backend in backends && (only.Some? ==> t[i].backend in only.value)
  }

  function Changed(t: Table, t': Table): set<PlacementId> {
    set i | i in t && i in t' && t'[i] != t[i]
  }

  /** Row `q` is row `p` under a new instruction. */
  predicate Requested(p: Placement, q: Placement, d: DesiredState) {
    q == p.(desired := d, applied := Pending, opVersion := p.opVersion + 1)
  }

  /** A request for a key changes exactly the permitted rows out of step, and leaves none of them so. */
  lemma RequestTakesEffect(t: Table, key: KeyId, d: DesiredState, backends: set<NodeId>, only: Option<set<NodeId>>)
    ensures var ids := Permitted(t, key, backends, only) * OutOfStep(t, {key}, d);
            var t' := SetDesired(t, ids, d);
            && Permitted(t', key, backends, only) == Permitted(t, key, backends, only)
            && Permitted(t', key, backends, only) !! OutOfStep(t', {key}, d)
            && Changed(t, t') == ids
            && forall i :: i in ids ==> Requested(t[i], t'[i], d)
  {
    var ids := Permitted(t, key, backends, only) * OutOfStep(t, {key}, d);
    var t' := SetDesired(t, ids, d);
    forall i ensures i in Changed(t, t') <==> i in ids {
      assert i in ids ==> i in t && t'[i].opVersion != t[i].opVersion;
    }
    forall i ensures i in Permitted(t', key, backends, only) <==> i in Permitted(t, key, backends, only) {
      assert i in t ==> i in t' && t'[i].key == t[i].key && t'[i].backend == t[i].backend && t'[i].active == t[i].active;
    }
    forall i | i in Permitted(t', key, backends, only) ensures i !in OutOfStep(t', {key}, d) {
    }
  }

  /** A second identical request right after the first finds nothing to raise. */
  lemma SetDesiredSettles(t: Table, keys: set<KeyId>, d: DesiredState)
    ensures OutOfStep(SetDesired(t, OutOfStep(t, keys, d), d), keys, d) == {}
  {
    var t' := SetDesired(t, OutOfStep(t, keys, d), d);
    assert forall i :: i in t' ==> i !in OutOfStep(t', keys, d);
  }

  /** Key `key` has an active row on node `n`. */
  predicate HasActiveRow(t: Table, key: KeyId, n: NodeId) {
    exists i :: i in t && t[i].active && t[i].key == key && t[i].backend == n
  }

  lemma NodesAreColumns(t: Table, keys: set<KeyId>, out: map<KeyId, set<NodeId>>)
    requires forall k :: k in out <==> k in keys && NodesOfKey(t, k) != {}
    requires forall k :: k in out ==> out[k] == NodesOfKey(t, k)
    ensures forall k, n :: k in out ==> (n in out[k] <==> HasActiveRow(t, k, n))
    ensures forall k, n :: k in keys && HasActiveRow(t, k, n) ==> k in out
  {
    forall k, n | HasActiveRow(t, k, n) ensures n in NodesOfKey(t, k) {
      var i :| i in t && t[i].active && t[i].key == k && t[i].backend == n;
    }
  }

  function NodesAmong(t: Table, ids: seq<PlacementId>, key: KeyId): set<NodeId> {
    set i | i in ids && i in t && t[i].key == key :: t[i].backend
  }

  lemma NodesAmongAppend(t: Table, ids: seq<PlacementId>, i: PlacementId, key: KeyId)
    requires i in t
    ensures NodesAmong(t, ids + [i], key) == NodesAmong(t, ids, key) + if t[i].key == key then {t[i].backend} else {}
  {
    assert forall x :: x in ids + [i] <==> x in ids || x == i;
  }

  /** Rows that are new or not what they were. */
  function Touched(t: Table, t': Table): set<PlacementId> {
    set i | i in t' && (i !in t || t'[i] != t[i])
  }

  /** The listed rows are new or have a higher version, and all others are as they were. */
  ghost predicate TouchedAre(t: Table, t': Table, ids: seq<PlacementId>) {
    && (forall i :: i in ids ==> i in t' && (i in t ==> t'[i].opVersion > t[i].opVersion))
    && (forall i :: i in t' && i !in ids ==> i in t && t'[i] == t[i])
  }

  lemma TouchOne(t: Table, before: Table, after: Table, ids: seq<PlacementId>, id: PlacementId)
    requires TouchedAre(t, before, ids) && id in after && after == before[id := after[id]]
    requires after[id].opVersion == (if id in before then before[id].opVersion else 0) + 1
    requires id in t ==> id in before
    ensures TouchedAre(t, after, ids + [id])
  {
    assert forall i :: i in ids + [id] <==> i in ids || i == id;
  }

  lemma TouchedElements(t: Table, t': Table, ids: seq<PlacementId>)
    requires TouchedAre(t, t', ids)
    ensures Elements(ids) == Touched(t, t')
  {
    forall i ensures i in Elements(ids) <==> i in Touched(t, t') {
    }
  }

  /** The loop has dealt with the first |ids| pairs, through the rows in `ids`. */
  ghost predicate UpsertedSoFar(t: Table, rows: Table, newIds: seq<PlacementId>, pairs: seq<(KeyId, NodeId)>,
                                ids: seq<PlacementId>, d: DesiredState)
  {
    && |ids| <= |pairs| == |newIds|
    && rows == UpsertAll(t, newIds[..|ids|], pairs[..|ids|], d, None)
    && t.Keys <= rows.Keys && (forall k :: |ids| <= k < |newIds| ==> newIds[k] !in rows)
    && AllAwaitApply(rows, ids, pairs, d)
    && TouchedAre(t, rows, ids)
  }

  lemma UpsertedNothing(t: Table, newIds: seq<PlacementId>, pairs: seq<(KeyId, NodeId)>, d: DesiredState)
    requires |newIds| == |pairs| && forall k :: 0 <= k < |newIds| ==> newIds[k] !in t
    ensures UpsertedSoFar(t, t, newIds, pairs, [], d)
  {
    assert newIds[..0] == [] && pairs[..0] == [];
    assert UpsertAll(t, [], [], d, None) == t;
  }

  lemma UpsertedFresh(t: Table, rows: Table, newIds: seq<PlacementId>, pairs: seq<(KeyId, NodeId)>, ids: seq<PlacementId>, d: DesiredState)
    requires UpsertedSoFar(t, rows, newIds, pairs, ids, d) && |ids| < |pairs|
    ensures newIds[|ids|] !in rows
  {
  }

  lemma UpsertedOneMore(t: Table, before: Table, after: Table, newIds: seq<PlacementId>, pairs: seq<(KeyId, NodeId)>,
                        ids: seq<PlacementId>, id: PlacementId, d: DesiredState)
    requires UpsertedSoFar(t, before, newIds, pairs, ids, d) && |ids| < |pairs| && Distinct(newIds)
    requires var n := |ids|;
             && after == Upsert(before, newIds[n], pairs[n].0, pairs[n].1, d, None)
             && AwaitsApply(after, id, pairs[n].0, pairs[n].1, d)
             && after == before[id := after[id]]
             && after[id].opVersion == (if id in before then before[id].opVersion else 0) + 1
             && (id == newIds[n] || id in before)
             && (id in before ==> Sits(before[id], pairs[n].0, pairs[n].1))
    ensures UpsertedSoFar(t, after, newIds, pairs, ids + [id], d)
  {
    hide TouchedAre, AllAwaitApply, Upsert, UpsertAll;
    UpsertAllStep(t, newIds, pairs, |ids|, d);
    AllAwaitApplyStep(before, after, ids, pairs, id, d);
    TouchOne(t, before, after, ids, id);
  }

  lemma UpsertedAll(t: Table, rows: Table, newIds: seq<PlacementId>, pairs: seq<(KeyId, NodeId)>, ids: seq<PlacementId>, d: DesiredState)
    requires UpsertedSoFar(t, rows, newIds, pairs, ids, d) && |ids| == |pairs|
    ensures rows == UpsertAll(t, newIds, pairs, d, None)
    ensures AllAwaitApply(rows, ids, pairs, d) && Elements(ids) == Touched(t, rows)
  {
    assert newIds[..|pairs|] == newIds && pairs[..|pairs|] == pairs;
    TouchedElements(t, rows, ids);
  }

  lemma UpsertedColumns(t: Table, rows: Table, pairs: seq<(KeyId, NodeId)>, ids: seq<PlacementId>, d: DesiredState)
    requires |ids| == |pairs| && AllAwaitApply(rows, ids, pairs, d) && Elements(ids) == Touched(t, rows)
    ensures forall k :: 0 <= k < |ids| ==>
              && ids[k] in rows && rows[ids[k]].key == pairs[k].0 && rows[ids[k]].backend == pairs[k].1
              && rows[ids[k]].active && rows[ids[k]].desired == d && rows[ids[k]].applied == Pending
    ensures forall i :: i in ids <==> i in rows && (i !in t || rows[i] != t[i])
  {
    forall k | 0 <= k < |ids| ensures AwaitsApply(rows, ids[k], pairs[k].0, pairs[k].1, d) {
    }
    assert forall i :: i in ids <==> i in Elements(ids);
  }

  datatype UniqueViolation = UniqueViolation

  ghost predicate KeyTwice(t: Table, ids: seq<PlacementId>)
    requires forall k :: 0 <= k < |ids| ==> ids[k] in t
  {
    exists m, n :: 0 <= m < n < |ids| && t[ids[m]].key == t[ids[n]].key
  }

  lemma CollisionAmongMoved(t: Table, ids: set<PlacementId>, target: NodeId, move: seq<PlacementId>, merge: set<PlacementId>)
    requires UniqueRows(t) && Distinct(move)
    requires SplitBy(t, ActiveAmong(t, ids), TargetByKey(t, target), Elements(move), merge)
    ensures forall k :: 0 <= k < |move| ==> move[k] in t
    ensures KeyTwice(t, move) <==> Collides(t, ids, target)
    ensures OneRowPerKey(t, ids) ==> !Collides(t, ids, target)
  {
    SplitPartitions(t, ids, target, Elements(move), merge);
    forall k | 0 <= k < |move| ensures Moves(t, ids, target, move[k]) {
      assert move[k] in Elements(move);
    }
    if i, j :| i != j && Moves(t, ids, target, i) && Moves(t, ids, target, j) && t[i].key == t[j].key {
      assert i in Elements(move) && j in Elements(move);
      var m :| 0 <= m < |move| && move[m] == i;
      var n :| 0 <= n < |move| && move[n] == j;
      assert m < n || n < m;
    }
  }

  lemma RaisedAreListed(t: Table, ids: set<PlacementId>, target: NodeId, t': Table, listed: seq<PlacementId>)
    requires IsMigration(t, ids, target, t') && Elements(listed) == Carriers(t, ids, target)
    ensures forall c :: c in listed <==> c in t' && c in t && t'[c].opVersion > t[c].opVersion
    ensures forall c :: c in listed ==> t'[c].backend == target && t'[c].active && t'[c].applied == Pending
  {
    forall c ensures c in listed <==> c in t' && c in t && t'[c].opVersion > t[c].opVersion
             ensures c in listed ==> c in t' && t'[c].backend == target && t'[c].active && t'[c].applied == Pending
    {
      assert c in listed <==> c in Elements(listed);
      if c in t { CarriersAreRaised(t, ids, target, t', c); }
    }
  }

  lemma ReroutedAreColumns(t: Table, ids: seq<PlacementId>, target: NodeId)
    ensures Rerouted(t, Elements(ids), target) == set i | i in t && i in ids && t[i].active && t[i].backend != target
  {
  }

  lemma MigrationOutcome(t: Table, ids: set<PlacementId>, target: NodeId, t': Table)
    requires UniqueRows(t) && IsMigration(t, ids, target, t')
    ensures UniqueRows(t') <==> !Collides(t, ids, target)
    ensures OneRowPerKey(t, ids) ==> !Collides(t, ids, target) && t' == Migrate(t, ids, target)
  {
    MigrationKeepsTable(t, ids, target, t');
    if OneRowPerKey(t, ids) { OneMigration(t, ids, target, t'); }
  }

  /** Row `id` is the active row of (key, node), set to `d` and not acknowledged yet. */
  ghost predicate AwaitsApply(t: Table, id: PlacementId, key: KeyId, node: NodeId, d: DesiredState) {
    id in t && Sits(t[id], key, node) && t[id].active && t[id].desired == d && t[id].applied == Pending
  }

  ghost predicate AllAwaitApply(t: Table, ids: seq<PlacementId>, pairs: seq<(KeyId, NodeId)>, d: DesiredState) {
    && |ids| <= |pairs|
    && forall k :: 0 <= k < |ids| ==> AwaitsApply(t, ids[k], pairs[k].0, pairs[k].1, d)
  }

  lemma AllAwaitApplyStep(t: Table, t': Table, ids: seq<PlacementId>, pairs: seq<(KeyId, NodeId)>,
                          id: PlacementId, d: DesiredState)
    requires AllAwaitApply(t, ids, pairs, d) && |ids| < |pairs|
    requires AwaitsApply(t', id, pairs[|ids|].0, pairs[|ids|].1, d)
    requires t' == t[id := t'[id]]
    requires id in t ==> t[id].key == t'[id].key && t[id].backend == t'[id].backend
    ensures AllAwaitApply(t', ids + [id], pairs, d)
  {
    forall k | 0 <= k < |ids|
      ensures AwaitsApply(t', ids[k], pairs[k].0, pairs[k].1, d)
    {
      assert AwaitsApply(t, ids[k], pairs[k].0, pairs[k].1, d);
    }
  }

  lemma UpsertAllStep(t: Table, newIds: seq<PlacementId>, pairs: seq<(KeyId, NodeId)>, n: nat, d: DesiredState)
    requires |newIds| == |pairs| && n < |pairs|
    ensures UpsertAll(t, newIds[..n + 1], pairs[..n + 1], d, None)
         == Upsert(UpsertAll(t, newIds[..n], pairs[..n], d, None), newIds[n], pairs[n].0, pairs[n].1, d, None)
  {
    assert newIds[..n + 1][..n] == newIds[..n] && pairs[..n + 1][..n] == pairs[..n];
  }

  // ---- Grouping a batch of reports by reported state ------------------------

  function WithState(rs: seq<Report>, a: AppliedState): seq<Report> {
    if rs == [] then []
    else (if rs[0].state == a then [rs[0]] else []) + WithState(rs[1..], a)
  }

  /** The reported states in order of first appearance: the keys of `by_state`. */
  function StatesOf(rs: seq<Report>): seq<AppliedState> {
    if rs == [] then []
    else
      var before := StatesOf(rs[..|rs| - 1]);
      var a := rs[|rs| - 1].state;
      if a in before then before else before + [a]
  }

  function Grouped(rs: seq<Report>, states: seq<AppliedState>): seq<Report> {
    if states == [] then [] else WithState(rs, states[0]) + Grouped(rs, states[1..])
  }

  lemma {:induction false} StatesOfCovers(rs: seq<Report>)
    ensures Distinct(StatesOf(rs))
    ensures forall a :: a in StatesOf(rs) <==> exists r :: r in rs && r.state == a
  {
    if rs != [] {
      var init, last := rs[..|rs| - 1], rs[|rs| - 1];
      StatesOfCovers(init);
      assert rs == init + [last];
      forall a ensures a in StatesOf(rs) <==> exists r :: r in rs && r.state == a {
        if a in StatesOf(rs) {
          if a in StatesOf(init) {
            var r :| r in init && r.state == a;
            assert r in rs;
          } else {
            assert last in rs;
          }
        }
      }
    }
  }

  lemma {:induction false} WithStateCounts(rs: seq<Report>, a: AppliedState, r: Report)
    ensures multiset(WithState(rs, a))[r] == if r.state == a then multiset(rs)[r] else 0
  {
    if rs != [] {
      assert rs == [rs[0]] + rs[1..];
      WithStateCounts(rs[1..], a, r);
    }
  }

  lemma {:induction false} GroupedCounts(rs: seq<Report>, states: seq<AppliedState>, r: Report)
    requires Distinct(states)
    ensures multiset(Grouped(rs, states))[r] == if r.state in states then multiset(rs)[r] else 0
  {
    if states != [] {
      WithStateCounts(rs, states[0], r);
      GroupedCounts(rs, states[1..], r);
      assert states == [states[0]] + states[1..];
    }
  }

  /** Grouping reorders the batch and loses nothing. */
  lemma GroupedIsPermutation(rs: seq<Report>)
    ensures multiset(Grouped(rs, StatesOf(rs))) == multiset(rs)
  {
    StatesOfCovers(rs);
    forall r ensures multiset(Grouped(rs, StatesOf(rs)))[r] == multiset(rs)[r] {
      GroupedCounts(rs, StatesOf(rs), r);
      if r in rs { assert r.state in StatesOf(rs); }
    }
  }

  /** One UPDATE of a group: every row whose (id, version, backend) is listed takes the group's state. */
  function LandGroup(t: Table, group: seq<Report>, a: AppliedState): Table {
    map i | i in t ::
      if exists k :: 0 <= k < |group| && group[k].placement == i && Lands(t, group[k])
      then t[i].(applied := a, appliedVersion := t[i].opVersion) else t[i]
  }

  lemma {:induction false} LandGroupIsSequential(t: Table, group: seq<Report>, a: AppliedState)
    requires forall r :: r in group ==> r.state == a
    ensures LandGroup(t, group, a) == LandAll(t, group)
  {
    if group != [] {
      var head, tail := group[0], group[1..];
      var t1 := Land(t, head);
      LandGroupIsSequential(t1, tail, a);
      forall i | i in t
        ensures i in LandGroup(t1, tail, a) && LandGroup(t, group, a)[i] == LandGroup(t1, tail, a)[i]
      {
        forall q { LandKeepsMatches(t, head, q); }
        assert forall k :: 0 <= k < |tail| ==> tail[k] == group[k + 1];
        assert head.state == a;
        if k :| 0 <= k < |group| && group[k].placement == i && Lands(t, group[k]) {
          if k > 0 { assert tail[k - 1] == group[k]; }
        }
      }
    }
  }

  lemma {:induction false} LandAllAppends(t: Table, a: seq<Report>, b: seq<Report>)
    ensures LandAll(t, a + b) == LandAll(LandAll(t, a), b)
  {
    if a == [] {
      assert a + b == b;
    } else {
      assert (a + b)[1..] == a[1..] + b;
      LandAllAppends(Land(t, a[0]), a[1..], b);
    }
  }

  /** The placements named by the reports that match. */
  function LandedIds(t: Table, rs: seq<Report>): set<PlacementId> {
    set r | r in rs && Lands(t, r) :: r.placement
  }

  lemma LandedIdsAppend(t: Table, a: seq<Report>, b: seq<Report>)
    ensures LandedIds(t, a + b) == LandedIds(t, a) + LandedIds(LandAll(t, a), b)
  {
    forall q { LandAllKeepsMatches(t, a, q); }
  }

  lemma {:induction false} GroupedAppends(rs: seq<Report>, a: seq<AppliedState>, b: seq<AppliedState>)
    ensures Grouped(rs, a + b) == Grouped(rs, a) + Grouped(rs, b)
  {
    if a == [] {
      assert a + b == b;
    } else {
      assert (a + b)[1..] == a[1..] + b;
      GroupedAppends(rs, a[1..], b);
    }
  }

  lemma GroupedStep(t: Table, rs: seq<Report>, order: seq<AppliedState>, n: nat)
    requires n < |order|
    ensures var done, group := Grouped(rs, order[..n]), WithState(rs, order[n]);
            && LandAll(t, Grouped(rs, order[..n + 1])) == LandAll(LandAll(t, done), group)
            && LandedIds(t, Grouped(rs, order[..n + 1])) == LandedIds(t, done) + LandedIds(LandAll(t, done), group)
  {
    assert order[..n + 1] == order[..n] + [order[n]];
    GroupedAppends(rs, order[..n], [order[n]]);
    assert Grouped(rs, [order[n]]) == WithState(rs, order[n]) + Grouped(rs, []) == WithState(rs, order[n]);
    assert Grouped(rs, order[..n + 1]) == Grouped(rs, order[..n]) + WithState(rs, order[n]);
    LandAllAppends(t, Grouped(rs, order[..n]), WithState(rs, order[n]));
    LandedIdsAppend(t, Grouped(rs, order[..n]), WithState(rs, order[n]));
  }

  lemma GroupedElements(rs: seq<Report>)
    ensures forall r :: r in Grouped(rs, StatesOf(rs)) <==> r in rs
  {
    GroupedIsPermutation(rs);
    forall r ensures r in Grouped(rs, StatesOf(rs)) <==> r in rs {
      assert r in multiset(rs) <==> r in rs;
    }
  }

  lemma {:induction false} LandAllKeepsMatches(t: Table, rs: seq<Report>, q: Report)
    ensures Lands(LandAll(t, rs), q) <==> Lands(t, q)
  {
    if rs != [] {
      LandKeepsMatches(t, rs[0], q);
      LandAllKeepsMatches(Land(t, rs[0]), rs[1..], q);
    }
  }

  /** Report `r` is about row `i` as it stands, from its backend. */
  predicate Concerns(r: Report, i: PlacementId, p: Placement) {
    r.placement == i && r.version == p.opVersion && r.node == p.backend
  }

  lemma BatchUpdates(t: Table, rs: seq<Report>)
    ensures forall i :: i in LandedIds(t, rs) <==> i in t && exists r :: r in rs && Concerns(r, i, t[i])
  {
    forall i ensures i in LandedIds(t, rs) <==> i in t && exists r :: r in rs && Concerns(r, i, t[i]) {
      if i in t {
        if r :| r in rs && Concerns(r, i, t[i]) {
          assert Lands(t, r);
        }
      }
    }
  }

  /** What a sequence of reports makes of each row. */
  lemma {:induction false} BatchOutcome(t: Table, rs: seq<Report>)
    ensures var t' := LandAll(t, rs);
            && t'.Keys == t.Keys
            && forall i :: i in t ==>
                 if exists r :: r in rs && Concerns(r, i, t[i])
                 then && t'[i] == t[i].(applied := t'[i].applied, appliedVersion := t[i].opVersion)
                      && exists r :: r in rs && Concerns(r, i, t[i]) && r.state == t'[i].applied
                 else t'[i] == t[i]
  {
    if rs != [] {
      var t1 := Land(t, rs[0]);
      BatchOutcome(t1, rs[1..]);
      var t' := LandAll(t, rs);
      assert rs == [rs[0]] + rs[1..];
      forall i | i in t
        ensures if exists r :: r in rs && Concerns(r, i, t[i])
                then && t'[i] == t[i].(applied := t'[i].applied, appliedVersion := t[i].opVersion)
                     && exists r :: r in rs && Concerns(r, i, t[i]) && r.state == t'[i].applied
                else t'[i] == t[i]
      {
        assert forall r :: Concerns(r, i, t[i]) <==> Concerns(r, i, t1[i]);
        if exists r :: r in rs[1..] && Concerns(r, i, t1[i]) {
          var r :| r in rs[1..] && Concerns(r, i, t1[i]) && r.state == t'[i].applied;
          assert r in rs;
        } else if Concerns(rs[0], i, t[i]) {
          assert rs[0] in rs;
        }
      }
    }
  }

  // ---- The repository ------------------------------------------------------

  class UserPlacementRepository {
    var rows: Table

    /** `newId` is the identifier the database would generate for an inserted row. */
    method UpsertSetPending(newId: PlacementId, key: KeyId, node: NodeId, d: DesiredState, sticky: Option<Time>)
      returns (id: PlacementId)
      requires UniqueRows(rows) && newId !in rows
      modifies this
      ensures UniqueRows(rows)
      ensures rows == Upsert(old(rows), newId, key, node, d, sticky)
      ensures AwaitsApply(rows, id, key, node, d)
      ensures rows[id] == Placement(key, node, d, Pending, rows[id].opVersion, rows[id].appliedVersion, sticky, true)
      ensures rows[id].opVersion == (if id in old(rows) then old(rows)[id].opVersion else 0) + 1
      ensures rows[id].appliedVersion == (if id in old(rows) then old(rows)[id].appliedVersion else 0) && rows[id].sticky == sticky
      ensures id == newId || id in old(rows)
      ensures id in old(rows) <==> exists j :: j in old(rows) && old(rows)[j].key == key && old(rows)[j].backend == node
      ensures id in old(rows) ==> Sits(old(rows)[id], key, node)
      ensures rows == old(rows)[id := rows[id]]
    {
      if j :| j in rows && Sits(rows[j], key, node) {
        rows := rows[j := Raise(rows[j]).(desired := d, sticky := sticky, active := true)];
        id := j;
      } else {
        rows := rows[newId := Placement(key, node, d, Pending, 1, 0, sticky, true)];
        id := newId;
      }
    }

    method BulkUpsertSetPending(newIds: seq<PlacementId>, pairs: seq<(KeyId, NodeId)>, d: DesiredState)
      returns (ids: seq<PlacementId>)
      requires UniqueRows(rows) && |newIds| == |pairs| && Distinct(pairs) && Distinct(newIds)
      requires forall k :: 0 <= k < |newIds| ==> newIds[k] !in rows
      modifies this
      ensures UniqueRows(rows)
      ensures rows == UpsertAll(old(rows), newIds, pairs, d, None)
      ensures |ids| == |pairs| && AllAwaitApply(rows, ids, pairs, d)
      ensures forall k :: 0 <= k < |ids| ==>
                && ids[k] in rows && rows[ids[k]].key == pairs[k].0 && rows[ids[k]].backend == pairs[k].1
                && rows[ids[k]].active && rows[ids[k]].desired == d && rows[ids[k]].applied == Pending
      ensures forall i :: i in ids <==> i in rows && (i !in old(rows) || rows[i] != old(rows)[i])
      ensures Elements(ids) == Touched(old(rows), rows)
    {
      hide UpsertedSoFar, AllAwaitApply, UpsertAll;
      ghost var t := rows;
      ids := [];
      UpsertedNothing(t, newIds, pairs, d);
      while |ids| < |pairs|
        invariant |ids| <= |pairs|
        invariant UniqueRows(rows) && UpsertedSoFar(t, rows, newIds, pairs, ids, d)
      {
        var n := |ids|;
        ghost var before := rows;
        UpsertedFresh(t, rows, newIds, pairs, ids, d);
        var id := UpsertSetPending(newIds[n], pairs[n].0, pairs[n].1, d, None);
        UpsertedOneMore(t, before, rows, newIds, pairs, ids, id, d);
        ids := ids + [id];
      }
      UpsertedAll(t, rows, newIds, pairs, ids, d);
      UpsertedColumns(t, rows, pairs, ids, d);
    }

    /** Keys without an active row are absent from the result. */
    method MapActiveBackendNodesByKey(keys: set<KeyId>) returns (out: map<KeyId, set<NodeId>>)
      ensures forall k :: k in out <==> k in keys && NodesOfKey(rows, k) != {}
      ensures forall k :: k in out ==> out[k] == NodesOfKey(rows, k)
      ensures forall k, n :: k in out ==> (n in out[k] <==> HasActiveRow(rows, k, n))
      ensures forall k, n :: k in keys && HasActiveRow(rows, k, n) ==> k in out
    {
      out := CollectNodes(keys);
      hide HasActiveRow, NodesOfKey;
      NodesAreColumns(rows, keys, out);
    }

    method CollectNodes(keys: set<KeyId>) returns (out: map<KeyId, set<NodeId>>)
      ensures forall k :: k in out <==> k in keys && NodesOfKey(rows, k) != {}
      ensures forall k :: k in out ==> out[k] == NodesOfKey(rows, k)
    {
      var found := ListOf(set i | i in rows && rows[i].key in keys && rows[i].active);
      assert forall i :: i in found ==> i in Elements(found);
      out := map[];
      for n := 0 to |found|
        invariant forall k :: k in out <==> NodesAmong(rows, found[..n], k) != {}
        invariant forall k :: k in out ==> out[k] == NodesAmong(rows, found[..n], k)
      {
        assert found[n] in found;
        var p := rows[found[n]];
        assert found[..n + 1] == found[..n] + [found[n]];
        forall k { NodesAmongAppend(rows, found[..n], found[n], k); }
        out := out[p.key := (if p.key in out then out[p.key] else {}) + {p.backend}];
      }
      assert found[..|found|] == found;
      forall k ensures NodesAmong(rows, found, k) == if k in keys then NodesOfKey(rows, k) else {} {
        assert forall i :: i in found <==> i in Elements(found);
      }
    }

    method DeactivatePlacementsOnNode(node: NodeId) returns (ids: seq<PlacementId>)
      modifies this
      ensures Elements(ids) == ServingOnNode(old(rows), node)
      ensures rows == SetDesired(old(rows), Elements(ids), Inactive)
      ensures forall i :: i in ids <==>
                i in old(rows) && old(rows)[i].active && old(rows)[i].desired == Active && old(rows)[i].backend == node
      ensures forall i :: i in ids ==> i in rows && Requested(old(rows)[i], rows[i], Inactive)
      ensures forall i :: i in rows && i !in ids ==> i in old(rows) && rows[i] == old(rows)[i]
      ensures forall i :: i in rows ==> !(rows[i].active && rows[i].desired == Active && rows[i].backend == node)
    {
      ids := ListOf(ServingOnNode(rows, node));
      if ids != [] {
        rows := SetDesired(rows, Elements(ids), Inactive);
      }
      assert forall i :: i in ids <==> i in Elements(ids);
    }

    /**
      `backends` are the nodes of role backend; `only` narrows them further when given. Afterwards no
      permitted row of the key is out of step, so the same request again would count nothing.
     */
    method SetDesiredStateForKey(key: KeyId, d: DesiredState, backends: set<NodeId>, only: Option<set<NodeId>>)
      returns (count: nat)
      modifies this
      ensures rows.Keys == old(rows).Keys
      ensures Permitted(rows, key, backends, only) == Permitted(old(rows), key, backends, only)
      ensures Permitted(rows, key, backends, only) !! OutOfStep(rows, {key}, d)
      ensures forall i :: i in rows ==>
                rows[i].key == key && rows[i].active && rows[i].backend in backends && (only.None? || rows[i].backend in only.value) ==>
                  rows[i].desired == d && rows[i].applied == Pending
      ensures forall i :: i in rows && rows[i] != old(rows)[i] ==>
                && rows[i].key == key && rows[i].active && rows[i].backend in backends
                && (only.Some? ==> rows[i].backend in only.value)
                && (old(rows)[i].desired != d || old(rows)[i].applied != Pending)
      ensures forall i :: i in Changed(old(rows), rows) ==> i in Permitted(rows, key, backends, only) && Requested(old(rows)[i], rows[i], d)
      ensures count == |Changed(old(rows), rows)|
    {
      var ids := Permitted(rows, key, backends, only) * OutOfStep(rows, {key}, d);
      RequestTakesEffect(rows, key, d, backends, only);
      rows := SetDesired(rows, ids, d);
      count := |ids|;
    }

    method BulkSetDesiredStateForKeys(keys: seq<KeyId>, d: DesiredState) returns (ids: seq<PlacementId>)
      modifies this
      ensures Elements(ids) == OutOfStep(old(rows), Elements(keys), d)
      ensures rows == SetDesired(old(rows), Elements(ids), d)
      ensures OutOfStep(rows, Elements(keys), d) == {}
      ensures forall i :: i in ids <==>
                && i in old(rows) && old(rows)[i].active && old(rows)[i].key in keys
                && (old(rows)[i].desired != d || old(rows)[i].applied != Pending)
      ensures forall i :: i in ids ==> i in rows && Requested(old(rows)[i], rows[i], d)
      ensures forall i :: i in rows && i !in ids ==> i in old(rows) && rows[i] == old(rows)[i]
    {
      SetDesiredSettles(rows, Elements(keys), d);
      ids := ListOf(OutOfStep(rows, Elements(keys), d));
      assert forall i :: i in ids <==> i in Elements(ids);
      assert forall k :: k in keys <==> k in Elements(keys);
      rows := SetDesired(rows, Elements(ids), d);
    }

    method SetPendingForBackend(node: NodeId) returns (ids: seq<PlacementId>)
      modifies this
      ensures Elements(ids) == OnNode(old(rows), node)
      ensures rows == Requeue(old(rows), Elements(ids))
      ensures forall i :: i in ids <==> i in old(rows) && old(rows)[i].active && old(rows)[i].backend == node
      ensures forall i :: i in ids ==> i in rows && Requested(old(rows)[i], rows[i], old(rows)[i].desired)
      ensures forall i :: i in rows && i !in ids ==> i in old(rows) && rows[i] == old(rows)[i]
    {
      ids := ListOf(OnNode(rows, node));
      assert forall i :: i in ids <==> i in Elements(ids);
      rows := Requeue(rows, Elements(ids));
    }

    /** The partitioning loop over the locked source rows. */
    method Split(sources: seq<PlacementId>, targetByKey: map<KeyId, PlacementId>)
      returns (move: seq<PlacementId>, merge: seq<PlacementId>)
      requires Distinct(sources) && forall k :: 0 <= k < |sources| ==> sources[k] in rows
      ensures Distinct(move) && Distinct(merge)
      ensures SplitBy(rows, Elements(sources), targetByKey, Elements(move), Elements(merge))
    {
      move, merge := [], [];
      for n := 0 to |sources|
        invariant Distinct(move) && Distinct(merge)
        invariant SplitBy(rows, Elements(sources[..n]), targetByKey, Elements(move), Elements(merge))
      {
        var i := sources[n];
        assert sources[..n + 1] == sources[..n] + [i];
        assert Elements(sources[..n + 1]) == Elements(sources[..n]) + {i};
        assert Elements(move + [i]) == Elements(move) + {i} && Elements(merge + [i]) == Elements(merge) + {i};
        if rows[i].key !in targetByKey {
          move := move + [i];
        } else if targetByKey[rows[i].key] != i {
          merge := merge + [i];
        }
      }
      assert sources[..|sources|] == sources;
    }

    /**
      Returns how many rows came over and the rows on the target that need a command. The unique
      constraint aborts it when two selected rows of one key would be moved.
     */
    method BulkMigrateBackend(ids: seq<PlacementId>, target: NodeId)
      returns (r: Result<(nat, seq<PlacementId>), UniqueViolation>)
      requires UniqueRows(rows)
      modifies this
      ensures UniqueRows(rows)
      ensures r.Err? <==> Collides(old(rows), Elements(ids), target)
      ensures r.Err? ==> rows == old(rows)
      ensures r.Ok? ==>
                && IsMigration(old(rows), Elements(ids), target, rows)
                && Distinct(r.value.1) && r.value.0 == |r.value.1|
                && Elements(r.value.1) == Carriers(old(rows), Elements(ids), target)
                && (forall c :: c in r.value.1 <==> c in rows && c in old(rows) && rows[c].opVersion > old(rows)[c].opVersion)
                && (forall c :: c in r.value.1 ==> rows[c].backend == target && rows[c].active && rows[c].applied == Pending)
      ensures OneRowPerKey(old(rows), Elements(ids)) ==>
                && r.Ok? && rows == Migrate(old(rows), Elements(ids), target)
                && r.value.0 == |set i | i in old(rows) && i in ids && old(rows)[i].active && old(rows)[i].backend != target|
    {
      ghost var t := rows;
      ReroutedAreColumns(t, ids, target);
      hide UniqueRows, IsMigration, Collides, Carriers, OneRowPerKey, Migrate, Rerouted, Planned, SplitBy, KeyTwice, TargetByKey;
      var sources := ListOf(ActiveAmong(rows, Elements(ids)));
      forall k | 0 <= k < |sources| ensures sources[k] in rows {
        assert sources[k] in Elements(sources);
      }
      var move, merge := Split(sources, TargetByKey(rows, target));
      CollisionAmongMoved(rows, Elements(ids), target, move, Elements(merge));
      MigrationPlan(rows, Elements(ids), target, move, merge);
      var collision := SameKeyTwice(move);
      if collision { return Err(UniqueViolation); }
      var targetIds := RunStages(ids, target, move, merge);
      RaisedAreListed(t, Elements(ids), target, rows, targetIds);
      return Ok((|targetIds|, targetIds));
    }

    /** The three statements, once the unique constraint lets the first one through. */
    method RunStages(ghost ids: seq<PlacementId>, target: NodeId, move: seq<PlacementId>, merge: seq<PlacementId>)
      returns (targetIds: seq<PlacementId>)
      requires UniqueRows(rows) && Distinct(move) && !Collides(rows, Elements(ids), target)
      requires forall k :: 0 <= k < |merge| ==> merge[k] in rows
      requires Planned(rows, Elements(ids), target, move, merge)
      modifies this
      ensures UniqueRows(rows) && IsMigration(old(rows), Elements(ids), target, rows)
      ensures Distinct(targetIds) && Elements(targetIds) == Carriers(old(rows), Elements(ids), target)
      ensures OneRowPerKey(old(rows), Elements(ids)) ==>
                && rows == Migrate(old(rows), Elements(ids), target)
                && |targetIds| == |Rerouted(old(rows), Elements(ids), target)|
    {
      hide UniqueRows, IsMigration, Collides, Carriers, OneRowPerKey, Migrate, Rerouted, MoveStage, MergeStage, RetireStage, MergedRows;
      var sourceByKey := SourceByKey(rows, merge);
      var merged := ListOf(MergedRows(rows, Elements(move), sourceByKey, target));
      DistinctConcat(move, merged);
      targetIds := move + merged;
      DistinctSize(targetIds);
      ghost var t := rows;
      rows := MoveStage(rows, Elements(move), target);
      rows := MergeStage(rows, sourceByKey, target);
      rows := RetireStage(rows, Elements(merge));
      MigrationOutcome(t, Elements(ids), target, rows);
    }

    /** What the unique constraint on (key, backend) looks for among rows moved to one node. */
    method SameKeyTwice(ids: seq<PlacementId>) returns (found: bool)
      requires Distinct(ids) && forall k :: 0 <= k < |ids| ==> ids[k] in rows
      ensures found <==> KeyTwice(rows, ids)
    {
      var seen: map<KeyId, nat> := map[];
      for n := 0 to |ids|
        invariant forall k :: k in seen ==> seen[k] < n && rows[ids[seen[k]]].key == k
        invariant forall m :: 0 <= m < n ==> rows[ids[m]].key in seen && seen[rows[ids[m]].key] == m
      {
        var k := rows[ids[n]].key;
        if k in seen { return true; }
        seen := seen[k := n];
      }
      return false;
    }

    method ApplyBackendReport(r: Report) returns (updated: nat)
      modifies this
      ensures rows == Land(old(rows), r)
      ensures updated == if Lands(old(rows), r) then 1 else 0
      ensures updated == 1 <==>
                r.placement in old(rows) && old(rows)[r.placement].opVersion == r.version && old(rows)[r.placement].backend == r.node
      ensures rows == if updated == 1
                      then old(rows)[r.placement := old(rows)[r.placement].(applied := r.state, appliedVersion := r.version)]
                      else old(rows)
    {
      updated := 0;
      if Lands(rows, r) {
        rows := rows[r.placement := rows[r.placement].(applied := r.state, appliedVersion := r.version)];
        updated := 1;
      }
    }

    /** One UPDATE ... RETURNING of the bulk path. */
    method ApplyGroup(group: seq<Report>, a: AppliedState) returns (ids: set<PlacementId>)
      requires forall r :: r in group ==> r.state == a
      modifies this
      ensures rows == LandAll(old(rows), group)
      ensures ids == LandedIds(old(rows), group)
    {
      LandGroupIsSequential(rows, group, a);
      ids := LandedIds(rows, group);
      rows := LandGroup(rows, group, a);
    }

    /** A batch has the effect of its reports one by one, in the order the grouping gives them. */
    method BulkApplyBackendReport(items: seq<Report>) returns (updated: set<PlacementId>)
      modifies this
      ensures rows == LandAll(old(rows), Grouped(items, StatesOf(items)))
      ensures updated == LandedIds(old(rows), items)
      ensures forall i :: i in updated <==> i in old(rows) && exists r :: r in items && Concerns(r, i, old(rows)[i])
      ensures rows.Keys == old(rows).Keys
      ensures forall i :: i in rows && i !in updated ==> rows[i] == old(rows)[i]
      ensures forall i :: i in rows && i in updated ==>
                && rows[i] == old(rows)[i].(applied := rows[i].applied, appliedVersion := old(rows)[i].opVersion)
                && exists r :: r in items && Concerns(r, i, old(rows)[i]) && r.state == rows[i].applied
    {
      ghost var t := rows;
      updated := {};
      var order, byState := GroupByState(items);
      var n := 0;
      while n < |order|
        invariant n <= |order|
        invariant rows == LandAll(t, Grouped(items, order[..n]))
        invariant updated == LandedIds(t, Grouped(items, order[..n]))
      {
        WithStateElements(items, order[n]);
        GroupedStep(t, items, order, n);
        var landed := ApplyGroup(byState[order[n]], order[n]);
        updated := updated + landed;
        n := n + 1;
      }
      assert order[..n] == order;
      GroupedElements(items);
      BatchOutcome(t, Grouped(items, StatesOf(items)));
      BatchUpdates(t, items);
    }

    /** The `by_state` dictionary, with its keys in insertion order. */
    method GroupByState(items: seq<Report>) returns (order: seq<AppliedState>, byState: map<AppliedState, seq<Report>>)
      ensures order == StatesOf(items)
      ensures byState.Keys == Elements(order)
      ensures forall a :: a in order ==> byState[a] == WithState(items, a)
    {
      hide GroupedSoFar, StatesOf, WithState;
      order, byState := [], map[];
      GroupNothing();
      assert items[..0] == [];
      for n := 0 to |items|
        invariant GroupedSoFar(items[..n], order, byState)
      {
        var item := items[n];
        assert items[..n + 1] == items[..n] + [item];
        GroupOneMore(items[..n], order, byState, item);
        ghost var before := byState;
        if item.state !in byState {
          order, byState := order + [item.state], byState[item.state := []];
        }
        byState := byState[item.state := byState[item.state] + [item]];
        assert byState == before[item.state := (if item.state in before then before[item.state] else []) + [item]];
      }
      assert items[..|items|] == items;
      GroupedIs(items, order, byState);
    }
  }

  lemma GroupNothing()
    ensures GroupedSoFar([], [], map[])
  {
  }

  lemma GroupedIs(rs: seq<Report>, order: seq<AppliedState>, byState: map<AppliedState, seq<Report>>)
    requires GroupedSoFar(rs, order, byState)
    ensures order == StatesOf(rs) && byState.Keys == Elements(order)
    ensures forall a :: a in order ==> byState[a] == WithState(rs, a)
  {
    assert forall a :: a in order <==> a in Elements(order);
  }

  /** The dictionary and its key order after the loop has seen `rs`. */
  ghost predicate GroupedSoFar(rs: seq<Report>, order: seq<AppliedState>, byState: map<AppliedState, seq<Report>>) {
    && order == StatesOf(rs)
    && byState.Keys == Elements(order)
    && (forall a :: a in byState ==> byState[a] == WithState(rs, a))
    && (forall a :: a !in byState ==> WithState(rs, a) == [])
  }

  lemma GroupOneMore(rs: seq<Report>, order: seq<AppliedState>, byState: map<AppliedState, seq<Report>>, item: Report)
    requires GroupedSoFar(rs, order, byState)
    ensures var seen := item.state in byState;
            GroupedSoFar(rs + [item], if seen then order else order + [item.state],
                         byState[item.state := (if seen then byState[item.state] else []) + [item]])
  {
    hide StatesOf, WithState;
    StatesOfAppends(rs, item);
    assert item.state in order <==> item.state in Elements(order);
    forall a { WithStateAppends(rs, item, a); }
  }

  lemma StatesOfAppends(rs: seq<Report>, r: Report)
    ensures StatesOf(rs + [r]) == if r.state in StatesOf(rs) then StatesOf(rs) else StatesOf(rs) + [r.state]
  {
    assert (rs + [r])[..|rs|] == rs;
  }

  lemma {:induction false} WithStateAppends(rs: seq<Report>, r: Report, a: AppliedState)
    ensures WithState(rs + [r], a) == WithState(rs, a) + if r.state == a then [r] else []
  {
    if rs != [] {
      assert (rs + [r])[1..] == rs[1..] + [r];
      WithStateAppends(rs[1..], r, a);
    }
  }

  lemma {:induction false} WithStateElements(rs: seq<Report>, a: AppliedState)
    ensures forall r :: r in WithState(rs, a) <==> r in rs && r.state == a
  {
    if rs != [] {
      WithStateElements(rs[1..], a);
      assert rs == [rs[0]] + rs[1..];
    }
  }
}
