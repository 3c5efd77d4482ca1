/** Moving the placements of an unavailable node to healthy ones. */
module AutoHeal {
  import opened Common
  import opened PlacementTable
  import opened PlacementRepository
  import opened PlacementProtocol
  import opened PlacementService
  import opened RoundRobin

  /** The key of row `i` already has an active row on another healthy node. */
  predicate Covered(t: Table, i: PlacementId, source: NodeId, healthy: set<NodeId>)
    requires i in t
  {
    (NodesOfKey(t, t[i].key) - {source}) * healthy != {}
  }

  /** Rows served on the source whose key has nowhere healthy to go. */
  function Orphans(t: Table, source: NodeId, healthy: set<NodeId>): set<PlacementId> {
    set i | i in ServingOnNode(t, source) && !Covered(t, i, source, healthy)
  }

  /** An orphan's key sits on no candidate, so the loop's fallback list is never needed. */
  lemma OrphansAvoidCandidates(t: Table, source: NodeId, healthy: set<NodeId>, i: PlacementId)
    requires i in Orphans(t, source, healthy) && source !in healthy
    ensures NodesOfKey(t, t[i].key) !! healthy
  {
    forall n | n in NodesOfKey(t, t[i].key) ensures n !in healthy {
      assert n != source ==> n in NodesOfKey(t, t[i].key) - {source};
    }
  }

  function Without(candidates: seq<NodeId>, taken: set<NodeId>): seq<NodeId> {
    if candidates == [] then []
    else (if candidates[0] in taken then [] else [candidates[0]]) + Without(candidates[1..], taken)
  }

  lemma {:induction false} WithoutNothing(candidates: seq<NodeId>, taken: set<NodeId>)
    requires taken !! Elements(candidates)
    ensures Without(candidates, taken) == candidates
  {
    if candidates != [] {
      assert candidates[0] in Elements(candidates);
      assert Elements(candidates[1..]) <= Elements(candidates);
      WithoutNothing(candidates[1..], taken);
    }
  }

  /** `min(available, key=load)`: the first of the least loaded. */
  method FirstLeastLoaded(available: seq<NodeId>, load: map<NodeId, nat>) returns (best: nat)
    requires available != [] && forall k :: 0 <= k < |available| ==> available[k] in load
    ensures best < |available|
    ensures forall k :: 0 <= k < |available| ==> load[available[best]] <= load[available[k]]
    ensures forall k :: 0 <= k < best ==> load[available[best]] < load[available[k]]
  {
    best := 0;
    for n := 1 to |available|
      invariant best < n
      invariant forall k :: 0 <= k < n ==> load[available[best]] <= load[available[k]]
      invariant forall k :: 0 <= k < best ==> load[available[best]] < load[available[k]]
    {
      if load[available[n]] < load[available[best]] {
        best := n;
      }
    }
  }

  /** With k entries dealt, the first least loaded place is k modulo n. */
  lemma LeastLoadedIsNext<T>(dealt: seq<T>, n: nat, best: nat)
    requires best < n
    requires forall j :: 0 <= j < n ==> |Dealt(dealt, n, best)| <= |Dealt(dealt, n, j)|
    requires forall j :: 0 <= j < best ==> |Dealt(dealt, n, best)| < |Dealt(dealt, n, j)|
    ensures best == |dealt| % n
  {
    var r := |dealt| % n;
    DealtSize(dealt, n, best);
    DealtSize(dealt, n, r);
    assert |Dealt(dealt, n, best)| <= |Dealt(dealt, n, r)|;
  }

  /** The groups and loads after the greedy loop has placed `orphans`. */
  ghost predicate DealtSoFar(orphans: seq<PlacementId>, candidates: seq<NodeId>,
                             groups: map<NodeId, seq<PlacementId>>, load: map<NodeId, nat>)
  {
    && load.Keys == Elements(candidates) && groups.Keys <= load.Keys
    && forall j :: 0 <= j < |candidates| ==> DealtTo(orphans, candidates, groups, load, j)
  }

  ghost predicate DealtTo(orphans: seq<PlacementId>, candidates: seq<NodeId>,
                          groups: map<NodeId, seq<PlacementId>>, load: map<NodeId, nat>, j: nat)
    requires j < |candidates|
  {
    var hand := Dealt(orphans, |candidates|, j);
    && candidates[j] in load && load[candidates[j]] == |hand|
    && (if candidates[j] in groups then groups[candidates[j]] == hand else hand == [])
  }

  lemma DealtStep(orphans: seq<PlacementId>, o: PlacementId, candidates: seq<NodeId>,
                  groups: map<NodeId, seq<PlacementId>>, load: map<NodeId, nat>, best: nat)
    requires candidates != [] && Distinct(candidates)
    requires DealtSoFar(orphans, candidates, groups, load)
    requires best == |orphans| % |candidates|
    ensures candidates[best] in load
    ensures var c := candidates[best];
            DealtSoFar(orphans + [o], candidates,
                       groups[c := (if c in groups then groups[c] else []) + [o]], load[c := load[c] + 1])
  {
    var c := candidates[best];
    var groups' := groups[c := (if c in groups then groups[c] else []) + [o]];
    assert DealtTo(orphans, candidates, groups, load, best);
    var load' := load[c := load[c] + 1];
    assert (orphans + [o])[..|orphans|] == orphans;
    forall j | 0 <= j < |candidates| ensures DealtTo(orphans + [o], candidates, groups', load', j) {
      assert DealtTo(orphans, candidates, groups, load, j);
    }
  }

  /** `min` over the whole candidate list picks the next place in turn. */
  lemma BestIsNext(orphans: seq<PlacementId>, candidates: seq<NodeId>,
                   groups: map<NodeId, seq<PlacementId>>, load: map<NodeId, nat>, best: nat)
    requires DealtSoFar(orphans, candidates, groups, load)
    requires best < |candidates| && FirstLeast(candidates, load, best)
    ensures best == |orphans| % |candidates|
  {
    assert DealtTo(orphans, candidates, groups, load, best);
    forall j | 0 <= j < |candidates|
      ensures |Dealt(orphans, |candidates|, best)| <= |Dealt(orphans, |candidates|, j)|
      ensures j < best ==> |Dealt(orphans, |candidates|, best)| < |Dealt(orphans, |candidates|, j)|
    {
      assert DealtTo(orphans, candidates, groups, load, j);
    }
    LeastLoadedIsNext(orphans, |candidates|, best);
  }

  /** One turn of the loop: the available candidates, the fallback, the least loaded of them. */
  method Choose(candidates: seq<NodeId>, existing: set<NodeId>, load: map<NodeId, nat>) returns (best: NodeId)
    requires candidates != [] && load.Keys == Elements(candidates)
    ensures best in candidates
    ensures existing !! Elements(candidates) ==>
              exists b :: 0 <= b < |candidates| && candidates[b] == best && FirstLeast(candidates, load, b)
  {
    var available := Without(candidates, existing);
    WithoutSubset(candidates, existing);
    if available == [] {
      available := candidates;
    }
    if existing !! Elements(candidates) { WithoutNothing(candidates, existing); }
    assert forall c :: c in available ==> c in Elements(candidates);
    assert forall k :: 0 <= k < |available| ==> available[k] in available;
    var b := FirstLeastLoaded(available, load);
    best := available[b];
  }

  ghost predicate FirstLeast(candidates: seq<NodeId>, load: map<NodeId, nat>, best: nat)
    requires best < |candidates|
  {
    && (forall k :: 0 <= k < |candidates| ==> candidates[k] in load)
    && (forall k :: 0 <= k < |candidates| ==> load[candidates[best]] <= load[candidates[k]])
    && (forall k :: 0 <= k < best ==> load[candidates[best]] < load[candidates[k]])
  }

  lemma {:induction false} WithoutSubset(candidates: seq<NodeId>, taken: set<NodeId>)
    ensures forall c :: c in Without(candidates, taken) ==> c in candidates
  {
    if candidates != [] {
      WithoutSubset(candidates[1..], taken);
    }
  }

  /** The distribution loop: the groups come out dealt in turn. */
  method Distribute(orphans: seq<PlacementId>, t: Table, keyNodes: map<KeyId, set<NodeId>>, candidates: seq<NodeId>)
    returns (groups: map<NodeId, seq<PlacementId>>, load: map<NodeId, nat>)
    requires candidates != [] && Distinct(candidates)
    requires forall o :: o in orphans ==> o in t && (t[o].key in keyNodes ==> keyNodes[t[o].key] !! Elements(candidates))
    ensures DealtSoFar(orphans, candidates, groups, load)
  {
    groups, load := map[], map c | c in Elements(candidates) :: 0;
    for n := 0 to |orphans|
      invariant DealtSoFar(orphans[..n], candidates, groups, load)
    {
      var o := orphans[n];
      assert o in orphans;
      var c := Choose(candidates, if t[o].key in keyNodes then keyNodes[t[o].key] else {}, load);
      ghost var b :| 0 <= b < |candidates| && candidates[b] == c && FirstLeast(candidates, load, b);
      BestIsNext(orphans[..n], candidates, groups, load, b);
      DealtStep(orphans[..n], o, candidates, groups, load, b);
      assert orphans[..n + 1] == orphans[..n] + [o];
      groups := groups[c := (if c in groups then groups[c] else []) + [o]];
      load := load[c := load[c] + 1];
    }
    assert orphans[..|orphans|] == orphans;
  }

  /** The spread is even: any two candidates end up at most one placement apart. */
  lemma SpreadIsEven(orphans: seq<PlacementId>, candidates: seq<NodeId>,
                     groups: map<NodeId, seq<PlacementId>>, load: map<NodeId, nat>, i: nat, j: nat)
    requires DealtSoFar(orphans, candidates, groups, load)
    requires i < |candidates| && j < |candidates|
    ensures candidates[i] in load && candidates[j] in load && load[candidates[i]] <= load[candidates[j]] + 1
  {
    assert DealtTo(orphans, candidates, groups, load, i) && DealtTo(orphans, candidates, groups, load, j);
    DealtEven(orphans, |candidates|, i, j);
  }

  // ---- Migrating the groups ----------------------------------------------------

  /** The backend command for row `c` as it stands is in the outbox. */
  ghost predicate Announced(outbox: set<Command>, t: Table, c: PlacementId)
    requires c in t
  {
    exists m :: m in outbox && m.MessageId() == (c, t[c].opVersion, None)
  }

  /** Row `c` serves the key of former row `o` from one of the candidates. */
  ghost predicate Home(t0: Table, t: Table, outbox: set<Command>, keys: Keys, candidates: set<NodeId>,
                       o: PlacementId, c: PlacementId)
  {
    && o in t0 && c in t
    && t[c].key == t0[o].key && t[c].backend in candidates
    && Serving(t[c]) && t[c].applied == Pending
    && (LiveKey(keys, t[c].key) ==> Announced(outbox, t, c))
  }

  ghost predicate KeyAmong(t: Table, ids: set<PlacementId>, key: KeyId) {
    exists o :: o in ids && o in t && t[o].key == key
  }

  /** The rows in `done` have new homes and no row of any other key has changed. */
  ghost predicate HealedUpTo(t0: Table, t: Table, outbox: set<Command>, keys: Keys, candidates: set<NodeId>,
                             done: set<PlacementId>)
  {
    && t.Keys == t0.Keys && UniqueRows(t)
    && (forall i :: i in t0 ==> t[i].key == t0[i].key)
    && (forall i :: i in t0 && !KeyAmong(t0, done, t0[i].key) ==> t[i] == t0[i])
    && (forall o :: o in done ==> exists c :: Home(t0, t, outbox, keys, candidates, o, c))
    && (forall o :: o in done ==> o in t && (t[o].active ==> t[o].backend in candidates))
  }

  /** A migration touches only rows of the selected keys. */
  lemma MigrateIsLocal(t: Table, ids: set<PlacementId>, target: NodeId, i: PlacementId)
    requires i in t && !KeyAmong(t, ids, t[i].key)
    ensures Migrate(t, ids, target)[i] == t[i]
  {
  }

  /** A group about to be migrated is still as it was when the run started. */
  lemma GroupUntouched(t0: Table, t: Table, outbox: set<Command>, keys: Keys, candidates: set<NodeId>,
                       source: NodeId, done: set<PlacementId>, group: set<PlacementId>, target: NodeId)
    requires UniqueRows(t0) && HealedUpTo(t0, t, outbox, keys, candidates, done)
    requires done <= ServingOnNode(t0, source) && group <= ServingOnNode(t0, source) && done !! group
    requires target != source
    ensures forall i :: i in group ==> i in t && t[i] == t0[i] && Selected(t, group, i)
    ensures UniqueRows(t) && OneRowPerKey(t, group) && Rerouted(t, group, target) == group
  {
    forall i | i in group ensures i in t && t[i] == t0[i] {
      assert !KeyAmong(t0, done, t0[i].key);
    }
  }

  lemma CarrierAnnounced(outbox: set<Command>, t: Table, ids: set<PlacementId>, keys: Keys,
                         entries: set<(NodeId, NodeId)>, c: PlacementId)
    requires c in ids && c in t && t[c].active && LiveKey(keys, t[c].key)
    ensures Announced(EnqueueMany(outbox, Commands(t, keys, ids, entries)), t, c)
  {
    var items := Commands(t, keys, ids, entries);
    var m := CommandFor(t, keys, c, None);
    assert m in items;
    if o :| o in outbox && o.MessageId() == m.MessageId() {
      assert o in EnqueueMany(outbox, items);
    } else {
      assert m in EnqueueMany(outbox, items);
    }
  }

  /** Homes found earlier survive the migration of a later group. */
  lemma HomesSurvive(t0: Table, t: Table, t': Table, outbox: set<Command>, outbox': set<Command>, keys: Keys,
                     candidates: set<NodeId>, o: PlacementId)
    requires exists c :: Home(t0, t, outbox, keys, candidates, o, c)
    requires outbox <= outbox' && o in t0
    requires forall i :: i in t && t[i].key == t0[o].key ==> i in t' && t'[i] == t[i]
    ensures exists c :: Home(t0, t', outbox', keys, candidates, o, c)
  {
    var c :| Home(t0, t, outbox, keys, candidates, o, c);
    if LiveKey(keys, t[c].key) {
      var m :| m in outbox && m.MessageId() == (c, t[c].opVersion, None);
      assert m in outbox' && Announced(outbox', t', c);
    }
    assert Home(t0, t', outbox', keys, candidates, o, c);
  }

  lemma NewHome(t0: Table, t: Table, outbox: set<Command>, keys: Keys, candidates: set<NodeId>,
                group: set<PlacementId>, target: NodeId, entries: set<(NodeId, NodeId)>, o: PlacementId)
    requires UniqueRows(t) && OneRowPerKey(t, group)
    requires o in t0 && o in t && t[o] == t0[o] && Serving(t[o]) && o in group
    requires t[o].backend != target && target in candidates
    ensures var t' := Migrate(t, group, target);
            var outbox' := EnqueueMany(outbox, Commands(t', keys, Carriers(t, group, target), entries));
            exists c :: Home(t0, t', outbox', keys, candidates, o, c)
  {
    var t' := Migrate(t, group, target);
    MigrateCarries(t, group, target, o);
    var c :| Carries(t, group, target, o, c);
    if LiveKey(keys, t'[c].key) {
      assert c in Carriers(t, group, target);
      CarrierAnnounced(outbox, t', Carriers(t, group, target), keys, entries, c);
    }
    assert Home(t0, t', EnqueueMany(outbox, Commands(t', keys, Carriers(t, group, target), entries)),
                keys, candidates, o, c);
  }

  /** One group more. */
  lemma HealGroup(t0: Table, t: Table, outbox: set<Command>, keys: Keys, candidates: set<NodeId>, source: NodeId,
                  done: set<PlacementId>, group: set<PlacementId>, target: NodeId, entries: set<(NodeId, NodeId)>)
    requires UniqueRows(t0) && HealedUpTo(t0, t, outbox, keys, candidates, done)
    requires done <= ServingOnNode(t0, source) && group <= ServingOnNode(t0, source) && done !! group
    requires target in candidates && source !in candidates
    ensures var t' := Migrate(t, group, target);
            var outbox' := EnqueueMany(outbox, Commands(t', keys, Carriers(t, group, target), entries));
            HealedUpTo(t0, t', outbox', keys, candidates, done + group)
  {
    hide Migrate, Home, Carriers, EnqueueMany, Commands, OneRowPerKey, UniqueRows;
    GroupUntouched(t0, t, outbox, keys, candidates, source, done, group, target);
    MigrateKeepsUnique(t, group, target);
    MigrateKeepsKeys(t, group, target);
    var t' := Migrate(t, group, target);
    var outbox' := EnqueueMany(outbox, Commands(t', keys, Carriers(t, group, target), entries));
    assert outbox <= outbox' by { EnqueueManyGrows(outbox, Commands(t', keys, Carriers(t, group, target), entries)); }
    forall i | i in t0 && !KeyAmong(t0, done + group, t0[i].key) ensures t'[i] == t0[i] {
      assert !KeyAmong(t0, done, t0[i].key);
      assert !KeyAmong(t, group, t[i].key);
      MigrateIsLocal(t, group, target, i);
    }
    forall o | o in done + group ensures exists c :: Home(t0, t', outbox', keys, candidates, o, c) {
      if o in group {
        NewHome(t0, t, outbox, keys, candidates, group, target, entries, o);
      } else {
        OtherKeysStay(t0, t, source, done, group, target, o);
        HomesSurvive(t0, t, t', outbox, outbox', keys, candidates, o);
      }
    }
    forall o | o in done + group ensures o in t' && (t'[o].active ==> t'[o].backend in candidates) {
      if o in group {
        MigrateCarries(t, group, target, o);
      } else {
        OtherKeysStay(t0, t, source, done, group, target, o);
        assert t[o].key == t0[o].key;
      }
    }
  }

  lemma EnqueueManyGrows(outbox: set<Command>, items: set<Command>)
    ensures outbox <= EnqueueMany(outbox, items)
  {
  }

  lemma MigrateKeepsKeys(t: Table, ids: set<PlacementId>, target: NodeId)
    ensures var t' := Migrate(t, ids, target);
            t'.Keys == t.Keys && forall i :: i in t ==> t'[i].key == t[i].key
  {
  }

  /** Rows of a key dealt with earlier are not touched by the next group. */
  lemma OtherKeysStay(t0: Table, t: Table, source: NodeId, done: set<PlacementId>, group: set<PlacementId>, target: NodeId,
                      o: PlacementId)
    requires UniqueRows(t0) && t.Keys == t0.Keys
    requires done <= ServingOnNode(t0, source) && group <= ServingOnNode(t0, source) && done !! group
    requires forall i :: i in group ==> i in t && t[i] == t0[i]
    requires o in done
    ensures forall i :: i in t && t[i].key == t0[o].key ==> Migrate(t, group, target)[i] == t[i]
  {
    assert !KeyAmong(t, group, t0[o].key);
    forall i | i in t && t[i].key == t0[o].key ensures Migrate(t, group, target)[i] == t[i] {
      MigrateIsLocal(t, group, target, i);
    }
  }

  // ---- Where the orphans end up ------------------------------------------------------

  /** Among the candidates, the key of former row `o` is active on node `n` and nowhere else. */
  ghost predicate PlacedAt(t0: Table, t: Table, candidates: set<NodeId>, o: PlacementId, n: NodeId) {
    o in t0 && NodesOfKey(t, t0[o].key) * candidates == {n}
  }

  /** The orphans whose key the final table serves from node `n`. */
  function CarriedTo(t0: Table, t: Table, orphans: set<PlacementId>, n: NodeId): set<PlacementId> {
    set o | o in orphans && o in t0 && n in NodesOfKey(t, t0[o].key)
  }

  ghost predicate EvenlyCarried(t0: Table, t: Table, orphans: set<PlacementId>, candidates: seq<NodeId>) {
    forall a, b :: a in candidates && b in candidates ==>
      |CarriedTo(t0, t, orphans, a)| <= |CarriedTo(t0, t, orphans, b)| + 1
  }

  /** A key without an active row on any candidate has one on the target alone after its migration. */
  lemma MigratedPlace(t: Table, group: set<PlacementId>, target: NodeId, candidates: set<NodeId>, o: PlacementId)
    requires UniqueRows(t) && OneRowPerKey(t, group)
    requires Selected(t, group, o) && t[o].backend != target && target in candidates
    requires NodesOfKey(t, t[o].key) !! candidates
    ensures NodesOfKey(Migrate(t, group, target), t[o].key) * candidates == {target}
  {
    var t' := Migrate(t, group, target);
    MigrateCarries(t, group, target, o);
    var c :| Carries(t, group, target, o, c);
    assert c in t' && Sits(t'[c], t[o].key, target) && t'[c].active;
    forall r | r in t' && t'[r].active && t'[r].key == t[o].key ensures t'[r].backend == target || t'[r].backend !in candidates {
      if t'[r].backend != target {
        MigrationRow(t, group, target, r, t'[r]) by {
          OneMigration(t, group, target, t');
        }
        assert r != o && !Selected(t, group, r);
        assert t'[r] == t[r];
        assert t[r].backend in NodesOfKey(t, t[o].key);
      }
    }
  }

  /** The first `j` hands have arrived, each on its own candidate. */
  ghost predicate HandsPlaced(t0: Table, t: Table, orphans: seq<PlacementId>, candidates: seq<NodeId>, j: nat)
    requires j <= |candidates|
  {
    forall k, o :: 0 <= k < j && o in Dealt(orphans, |candidates|, k) ==> PlacedAt(t0, t, Elements(candidates), o, candidates[k])
  }

  lemma PlaceHand(t0: Table, t: Table, outbox: set<Command>, keys: Keys, orphans: seq<PlacementId>, candidates: seq<NodeId>,
                  source: NodeId, done: set<PlacementId>, j: nat)
    requires j < |candidates| && Distinct(orphans) && source !in Elements(candidates)
    requires UniqueRows(t0) && HealedUpTo(t0, t, outbox, keys, Elements(candidates), done)
    requires Elements(orphans) <= ServingOnNode(t0, source) && Handled(orphans, |candidates|, j, done)
    requires forall o :: o in orphans ==> o in t0 && NodesOfKey(t0, t0[o].key) !! Elements(candidates)
    requires HandsPlaced(t0, t, orphans, candidates, j)
    ensures HandsPlaced(t0, Migrate(t, Elements(Dealt(orphans, |candidates|, j)), candidates[j]), orphans, candidates, j + 1)
  {
    hide Dealt, Migrate, NodesOfKey, OneRowPerKey, UniqueRows;
    HandleNext(orphans, |candidates|, j, done);
    var hand := Elements(Dealt(orphans, |candidates|, j));
    var target := candidates[j];
    assert target in Elements(candidates);
    GroupUntouched(t0, t, outbox, keys, Elements(candidates), source, done, hand, target);
    MigrateKeepsKeys(t, hand, target);
    var t' := Migrate(t, hand, target);
    forall k, o | 0 <= k < j + 1 && o in Dealt(orphans, |candidates|, k)
      ensures PlacedAt(t0, t', Elements(candidates), o, candidates[k])
    {
      assert o in Elements(Dealt(orphans, |candidates|, k));
      if k == j {
        PlaceOne(t0, t, outbox, keys, candidates, source, done, hand, target, o);
      } else {
        assert o in done && PlacedAt(t0, t, Elements(candidates), o, candidates[k]);
        OtherKeysStay(t0, t, source, done, hand, target, o);
        KeptNodes(t, t', t0[o].key);
      }
    }
  }

  lemma PlaceOne(t0: Table, t: Table, outbox: set<Command>, keys: Keys, candidates: seq<NodeId>,
                 source: NodeId, done: set<PlacementId>, hand: set<PlacementId>, target: NodeId, o: PlacementId)
    requires UniqueRows(t0) && HealedUpTo(t0, t, outbox, keys, Elements(candidates), done)
    requires done <= ServingOnNode(t0, source) && hand <= ServingOnNode(t0, source) && done !! hand
    requires target in Elements(candidates) && source !in Elements(candidates)
    requires o in hand && NodesOfKey(t0, t0[o].key) !! Elements(candidates)
    ensures PlacedAt(t0, Migrate(t, hand, target), Elements(candidates), o, target)
  {
    hide Migrate, NodesOfKey, OneRowPerKey;
    GroupUntouched(t0, t, outbox, keys, Elements(candidates), source, done, hand, target);
    SameNodes(t0, t, done, o);
    MigratedPlace(t, hand, target, Elements(candidates), o);
  }

  lemma SameNodes(t0: Table, t: Table, done: set<PlacementId>, o: PlacementId)
    requires t.Keys == t0.Keys && o in t0 && !KeyAmong(t0, done, t0[o].key)
    requires forall i :: i in t0 ==> t[i].key == t0[i].key
    requires forall i :: i in t0 && !KeyAmong(t0, done, t0[i].key) ==> t[i] == t0[i]
    ensures NodesOfKey(t, t0[o].key) == NodesOfKey(t0, t0[o].key)
  {
    KeptNodes(t0, t, t0[o].key);
  }

  lemma KeptNodes(t: Table, t': Table, key: KeyId)
    requires t'.Keys == t.Keys && forall i :: i in t ==> t'[i].key == t[i].key
    requires forall i :: i in t && t[i].key == key ==> t'[i] == t[i]
    ensures NodesOfKey(t', key) == NodesOfKey(t, key)
  {
    forall n ensures n in NodesOfKey(t', key) <==> n in NodesOfKey(t, key) {
      if i :| i in t && t[i].active && t[i].key == key && t[i].backend == n {
        assert i in t' && t'[i] == t[i];
      }
    }
  }

  /** All hands placed, the final table carries to each candidate exactly its hand. */
  lemma HandsAreEven(t0: Table, t: Table, orphans: seq<PlacementId>, candidates: seq<NodeId>)
    requires candidates != [] && Distinct(candidates) && Distinct(orphans)
    requires HandsPlaced(t0, t, orphans, candidates, |candidates|)
    ensures EvenlyCarried(t0, t, Elements(orphans), candidates)
  {
    hide Dealt;
    var n := |candidates|;
    forall j | 0 <= j < n ensures CarriedTo(t0, t, Elements(orphans), candidates[j]) == Elements(Dealt(orphans, n, j)) {
      CarriedIsHand(t0, t, orphans, candidates, j);
    }
    forall a, b | a in candidates && b in candidates
      ensures |CarriedTo(t0, t, Elements(orphans), a)| <= |CarriedTo(t0, t, Elements(orphans), b)| + 1
    {
      var i :| 0 <= i < n && candidates[i] == a;
      var j :| 0 <= j < n && candidates[j] == b;
      DealtEven(orphans, n, i, j);
      DealtDistinct(orphans, n, i);
      DealtDistinct(orphans, n, j);
      DistinctSize(Dealt(orphans, n, i));
      DistinctSize(Dealt(orphans, n, j));
    }
  }

  lemma CarriedIsHand(t0: Table, t: Table, orphans: seq<PlacementId>, candidates: seq<NodeId>, j: nat)
    requires j < |candidates| && Distinct(candidates) && Distinct(orphans)
    requires HandsPlaced(t0, t, orphans, candidates, |candidates|)
    ensures CarriedTo(t0, t, Elements(orphans), candidates[j]) == Elements(Dealt(orphans, |candidates|, j))
  {
    hide Dealt;
    var n := |candidates|;
    DealtPartitions(orphans, n);
    forall o ensures o in CarriedTo(t0, t, Elements(orphans), candidates[j]) <==> o in Elements(Dealt(orphans, n, j)) {
      if o in orphans {
        assert Placed(orphans, n, o);
        var k: nat :| k < n && o in Dealt(orphans, n, k);
        assert PlacedAt(t0, t, Elements(candidates), o, candidates[k]);
        assert candidates[j] in Elements(candidates);
        assert candidates[k] in NodesOfKey(t, t0[o].key) * Elements(candidates);
        assert o in Elements(Dealt(orphans, n, k));
        if k != j { assert candidates[j] !in NodesOfKey(t, t0[o].key) * Elements(candidates); }
      }
    }
  }

  class NodePlacementAutoHealService {
    const placements: UserPlacementService

    constructor (placements: UserPlacementService)
      ensures this.placements == placements
    {
      this.placements := placements;
    }

    /** Sorts the served rows into covered ones (counted) and orphans. */
    method FindOrphans(active: seq<PlacementId>, keyNodes: map<KeyId, set<NodeId>>, source: NodeId, healthy: set<NodeId>)
      returns (orphans: seq<PlacementId>, covered: nat)
      requires Distinct(active) && forall i :: i in active ==> i in placements.repo.rows
      requires var t := placements.repo.rows;
               forall i :: i in active ==> t[i].key in keyNodes && keyNodes[t[i].key] == NodesOfKey(t, t[i].key)
      ensures Distinct(orphans) && covered + |orphans| == |active|
      ensures forall i :: i in orphans <==> i in active && !Covered(placements.repo.rows, i, source, healthy)
    {
      orphans, covered := [], 0;
      for n := 0 to |active|
        invariant Distinct(orphans) && covered + |orphans| == n
        invariant forall i :: i in orphans <==> i in active[..n] && !Covered(placements.repo.rows, i, source, healthy)
      {
        var i := active[n];
        assert i in active && i !in active[..n] && active[..n + 1] == active[..n] + [i];
        if (keyNodes[placements.repo.rows[i].key] - {source}) * healthy != {} {
          covered := covered + 1;
        } else {
          orphans := orphans + [i];
        }
      }
      assert active[..|active|] == active;
    }

    /** Migrates and announces one group. */
    method MigrateGroup(group: seq<PlacementId>, target: NodeId, keys: Keys, entriesByBackend: map<NodeId, seq<NodeId>>)
      returns (migrated: nat)
      requires UniqueRows(placements.repo.rows) && OneRowPerKey(placements.repo.rows, Elements(group))
      modifies placements, placements.repo
      ensures placements.repo.rows == Migrate(old(placements.repo.rows), Elements(group), target)
      ensures migrated == |Rerouted(old(placements.repo.rows), Elements(group), target)|
      ensures placements.outbox == EnqueueMany(old(placements.outbox),
                Commands(placements.repo.rows, keys, Carriers(old(placements.repo.rows), Elements(group), target),
                         EntryPairs(entriesByBackend)))
    {
      ReroutedAreColumns(placements.repo.rows, group, target);
      var moved := placements.repo.BulkMigrateBackend(group, target);
      migrated := moved.value.0;
      if moved.value.1 != [] {
        placements.EnqueueForPlacementIds(moved.value.1, keys, entriesByBackend);
      }
    }

    /** The migration loop over the groups. */
    method MigrateGroups(orphans: seq<PlacementId>, source: NodeId, candidates: seq<NodeId>,
                         groups: map<NodeId, seq<PlacementId>>, ghost load: map<NodeId, nat>,
                         keys: Keys, entriesByBackend: map<NodeId, seq<NodeId>>)
      returns (total: nat)
      requires UniqueRows(placements.repo.rows)
      requires candidates != [] && Distinct(candidates) && source !in Elements(candidates)
      requires Distinct(orphans) && Elements(orphans) <= ServingOnNode(placements.repo.rows, source)
      requires DealtSoFar(orphans, candidates, groups, load)
      requires var t := placements.repo.rows;
               forall o :: o in orphans ==> o in t && NodesOfKey(t, t[o].key) !! Elements(candidates)
      modifies placements, placements.repo
      ensures total == |orphans|
      ensures EvenlyCarried(old(placements.repo.rows), placements.repo.rows, Elements(orphans), candidates)
      ensures HealedUpTo(old(placements.repo.rows), placements.repo.rows, placements.outbox, keys,
                         Elements(candidates), Elements(orphans))
    {
      hide HealedUpTo, HandsPlaced, Handled, EvenlyCarried, Migrate, UniqueRows, OneRowPerKey, Rerouted, Carriers, EnqueueMany,
           Commands, Dealt, ServingOnNode, NodesOfKey;
      ghost var t0 := placements.repo.rows;
      ghost var done: set<PlacementId> := {};
      HealingStarts(t0, placements.outbox, keys, orphans, candidates);
      total := 0;
      var j := 0;
      while j < |candidates|
        invariant j <= |candidates| && done <= Elements(orphans)
        invariant total == |done| && Handled(orphans, |candidates|, j, done)
        invariant HealedUpTo(t0, placements.repo.rows, placements.outbox, keys, Elements(candidates), done)
        invariant HandsPlaced(t0, placements.repo.rows, orphans, candidates, j)
      {
        PlaceHand(t0, placements.repo.rows, placements.outbox, keys, orphans, candidates, source, done, j);
        HandleNext(orphans, |candidates|, j, done);
        assert DealtTo(orphans, candidates, groups, load, j);
        ghost var hand := Elements(Dealt(orphans, |candidates|, j));
        assert candidates[j] in Elements(candidates);
        GroupUntouched(t0, placements.repo.rows, placements.outbox, keys, Elements(candidates), source, done, hand, candidates[j]);
        HealGroup(t0, placements.repo.rows, placements.outbox, keys, Elements(candidates), source, done, hand,
                  candidates[j], EntryPairs(entriesByBackend));
        if candidates[j] in groups {
          var migrated := MigrateGroup(groups[candidates[j]], candidates[j], keys, entriesByBackend);
          total := total + migrated;
        } else {
          NothingToMigrate(placements.repo.rows, placements.outbox, keys, candidates[j], EntryPairs(entriesByBackend));
        }
        done := done + hand;
        j := j + 1;
      }
      AllHandled(orphans, |candidates|, done);
      HandsAreEven(t0, placements.repo.rows, orphans, candidates);
    }

    /**
      Moves the orphans of an unavailable node onto the candidates, which the routing service
      selects without the source, and leaves covered keys alone. Returns how many moved.
     */
    method SmartMigratePlacements(source: NodeId, candidates: seq<NodeId>, keys: Keys,
                                  entriesByBackend: map<NodeId, seq<NodeId>>)
      returns (total: nat)
      requires UniqueRows(placements.repo.rows)
      requires Distinct(candidates) && source !in Elements(candidates)
      modifies placements, placements.repo
      ensures candidates == [] ==>
                total == 0 && placements.repo.rows == old(placements.repo.rows) && placements.outbox == old(placements.outbox)
      ensures candidates != [] ==>
                var orphans := Orphans(old(placements.repo.rows), source, Elements(candidates));
                && HealedUpTo(old(placements.repo.rows), placements.repo.rows, placements.outbox, keys,
                              Elements(candidates), orphans)
                && EvenlyCarried(old(placements.repo.rows), placements.repo.rows, orphans, candidates)
      ensures candidates != [] ==>
                total == |set i | i in old(placements.repo.rows) && old(placements.repo.rows)[i].active
                                  && old(placements.repo.rows)[i].desired == Active && old(placements.repo.rows)[i].backend == source
                                  && !OnSome(old(placements.repo.rows), old(placements.repo.rows)[i].key, Elements(candidates))|
      ensures candidates != [] ==>
                forall i :: i in old(placements.repo.rows) && old(placements.repo.rows)[i].active
                            && old(placements.repo.rows)[i].desired == Active && old(placements.repo.rows)[i].backend == source ==>
                  OnSome(placements.repo.rows, old(placements.repo.rows)[i].key, Elements(candidates))
    {
      hide Orphans, HealedUpTo, EvenlyCarried, OnSome;
      ghost var t := placements.repo.rows;
      total := MigrateOrphans(source, candidates, keys, entriesByBackend);
      OrphansAreColumns(t, source, Elements(candidates));
      if candidates != [] {
        forall i | i in t && t[i].active && t[i].desired == Active && t[i].backend == source
          ensures OnSome(placements.repo.rows, t[i].key, Elements(candidates))
        {
          AutoHealCoverage(t, placements.repo.rows, placements.outbox, keys, Elements(candidates), source, i);
        }
      }
    }

    method MigrateOrphans(source: NodeId, candidates: seq<NodeId>, keys: Keys, entriesByBackend: map<NodeId, seq<NodeId>>)
      returns (total: nat)
      requires UniqueRows(placements.repo.rows)
      requires Distinct(candidates) && source !in Elements(candidates)
      modifies placements, placements.repo
      ensures candidates == [] ==>
                total == 0 && placements.repo.rows == old(placements.repo.rows) && placements.outbox == old(placements.outbox)
      ensures candidates != [] ==>
                var orphans := Orphans(old(placements.repo.rows), source, Elements(candidates));
                && total == |orphans|
                && HealedUpTo(old(placements.repo.rows), placements.repo.rows, placements.outbox, keys,
                              Elements(candidates), orphans)
                && EvenlyCarried(old(placements.repo.rows), placements.repo.rows, orphans, candidates)
    {
      var t := placements.repo.rows;
      var active := ListOf(ServingOnNode(t, source));
      assert forall i :: i in active <==> i in ServingOnNode(t, source) by {
        assert forall i :: i in active <==> i in Elements(active);
      }
      var keyNodes := placements.repo.MapActiveBackendNodesByKey(set i | i in active :: t[i].key);
      KeysKnown(t, source, active, keyNodes);
      if active == [] || candidates == [] {
        return 0;
      }
      var orphans, _ := FindOrphans(active, keyNodes, source, Elements(candidates));
      OrphansFound(t, source, Elements(candidates), active, orphans);
      forall o | o in orphans ensures o in t && NodesOfKey(t, t[o].key) !! Elements(candidates) {
        OrphansAvoidCandidates(t, source, Elements(candidates), o);
      }
      var groups, load := Distribute(orphans, t, keyNodes, candidates);
      DistinctSize(orphans);
      total := MigrateGroups(orphans, source, candidates, groups, load, keys, entriesByBackend);
    }
  }

  lemma HealingStarts(t: Table, outbox: set<Command>, keys: Keys, orphans: seq<PlacementId>, candidates: seq<NodeId>)
    requires UniqueRows(t)
    ensures HealedUpTo(t, t, outbox, keys, Elements(candidates), {})
    ensures Handled(orphans, |candidates|, 0, {}) && HandsPlaced(t, t, orphans, candidates, 0)
  {
  }

  lemma OrphansFound(t: Table, source: NodeId, healthy: set<NodeId>, active: seq<PlacementId>, orphans: seq<PlacementId>)
    requires forall i :: i in active <==> i in ServingOnNode(t, source)
    requires forall i :: i in orphans <==> i in active && !Covered(t, i, source, healthy)
    ensures Elements(orphans) == Orphans(t, source, healthy)
  {
    forall i ensures i in Elements(orphans) <==> i in Orphans(t, source, healthy) {
      assert i in Elements(orphans) <==> i in orphans;
    }
  }

  /** Every served key has an entry in the map of active nodes. */
  lemma KeysKnown(t: Table, source: NodeId, active: seq<PlacementId>, keyNodes: map<KeyId, set<NodeId>>)
    requires forall i :: i in active ==> i in t && i in ServingOnNode(t, source)
    requires forall k :: k in keyNodes <==> k in (set i | i in active :: t[i].key) && NodesOfKey(t, k) != {}
    requires forall k :: k in keyNodes ==> keyNodes[k] == NodesOfKey(t, k)
    ensures forall i :: i in active ==> t[i].key in keyNodes && keyNodes[t[i].key] == NodesOfKey(t, t[i].key)
  {
    forall i | i in active ensures t[i].key in keyNodes {
      assert source in NodesOfKey(t, t[i].key);
    }
  }

  /** The key has an active row on one of the nodes. */
  predicate OnSome(t: Table, key: KeyId, nodes: set<NodeId>) {
    exists j :: j in t && t[j].active && t[j].key == key && t[j].backend in nodes
  }

  lemma CoveredAreColumns(t: Table, i: PlacementId, source: NodeId, candidates: set<NodeId>)
    requires i in t && source !in candidates
    ensures Covered(t, i, source, candidates) <==> OnSome(t, t[i].key, candidates)
  {
    if Covered(t, i, source, candidates) {
      var n := SomeOf((NodesOfKey(t, t[i].key) - {source}) * candidates);
      var j :| j in t && t[j].active && t[j].key == t[i].key && t[j].backend == n;
    }
    if j :| j in t && t[j].active && t[j].key == t[i].key && t[j].backend in candidates {
      assert t[j].backend in (NodesOfKey(t, t[i].key) - {source}) * candidates;
    }
  }

  lemma OrphansAreColumns(t: Table, source: NodeId, candidates: set<NodeId>)
    requires source !in candidates
    ensures Orphans(t, source, candidates)
         == set i | i in t && t[i].active && t[i].desired == Active && t[i].backend == source && !OnSome(t, t[i].key, candidates)
  {
    var columns := set i | i in t && t[i].active && t[i].desired == Active && t[i].backend == source
                           && !OnSome(t, t[i].key, candidates);
    forall i ensures i in Orphans(t, source, candidates) <==> i in columns {
      if i in t { CoveredAreColumns(t, i, source, candidates); }
    }
  }

  /**
    Coverage. After the migration every key that was active and wanted on the source has an active row on
    some candidate, waiting to be applied if it had none before, and its row on the source is not active
    any more; the rows of keys that had one are exactly what they were.
   */
  lemma AutoHealCoverage(t0: Table, t: Table, outbox: set<Command>, keys: Keys, candidates: set<NodeId>,
                         source: NodeId, i: PlacementId)
    requires UniqueRows(t0) && source !in candidates
    requires i in t0 && t0[i].active && t0[i].desired == Active && t0[i].backend == source
    requires HealedUpTo(t0, t, outbox, keys, candidates, Orphans(t0, source, candidates))
    ensures OnSome(t, t0[i].key, candidates)
    ensures OnSome(t0, t0[i].key, candidates) ==> forall j :: j in t0 && t0[j].key == t0[i].key ==> t[j] == t0[j]
    ensures !OnSome(t0, t0[i].key, candidates) ==>
              && (t[i].active ==> t[i].backend in candidates)
              && exists c :: c in t && t[c].key == t0[i].key && t[c].backend in candidates
                             && t[c].active && t[c].desired == Active && t[c].applied == Pending
  {
    CoveredAreColumns(t0, i, source, candidates);
    OrphansAreColumns(t0, source, candidates);
    if OnSome(t0, t0[i].key, candidates) {
      forall j | j in t0 && t0[j].key == t0[i].key ensures t[j] == t0[j] {
        assert !KeyAmong(t0, Orphans(t0, source, candidates), t0[j].key);
      }
      var j :| j in t0 && t0[j].active && t0[j].key == t0[i].key && t0[j].backend in candidates;
      assert t[j] == t0[j];
    } else {
      assert i in Orphans(t0, source, candidates);
      var c :| Home(t0, t, outbox, keys, candidates, i, c);
      assert c in t && t[c].active && t[c].key == t0[i].key && t[c].backend in candidates;
    }
  }

  /** Nothing else changes: only rows of keys that were active and wanted on the source, and on no candidate. */
  lemma AutoHealFrame(t0: Table, t: Table, outbox: set<Command>, keys: Keys, candidates: set<NodeId>,
                      source: NodeId, j: PlacementId)
    requires source !in candidates && j in t0
    requires HealedUpTo(t0, t, outbox, keys, candidates, Orphans(t0, source, candidates))
    ensures j in t
    ensures t[j] != t0[j] ==>
              && !OnSome(t0, t0[j].key, candidates)
              && exists i :: i in t0 && t0[i].key == t0[j].key && t0[i].active && t0[i].desired == Active && t0[i].backend == source
  {
    OrphansAreColumns(t0, source, candidates);
    if t[j] != t0[j] {
      assert KeyAmong(t0, Orphans(t0, source, candidates), t0[j].key);
    }
  }

  /** The first j hands have been dealt with and the rest has not. */
  ghost predicate Handled(orphans: seq<PlacementId>, n: nat, j: nat, done: set<PlacementId>)
    requires j <= n
  {
    && done <= Elements(orphans)
    && (forall k :: 0 <= k < j ==> Elements(Dealt(orphans, n, k)) <= done)
    && (forall k :: j <= k < n ==> Elements(Dealt(orphans, n, k)) !! done)
  }

  lemma HandleNext(orphans: seq<PlacementId>, n: nat, j: nat, done: set<PlacementId>)
    requires j < n && Distinct(orphans) && Handled(orphans, n, j, done)
    ensures var hand := Elements(Dealt(orphans, n, j));
            hand <= Elements(orphans) && hand !! done && Handled(orphans, n, j + 1, done + hand)
            && |done + hand| == |done| + |hand|
  {
    hide Dealt;
    var hand := Elements(Dealt(orphans, n, j));
    assert hand <= Elements(orphans) && forall k :: j < k < n ==> Elements(Dealt(orphans, n, k)) !! hand by {
      DealtPartitions(orphans, n);
    }
  }

  lemma AllHandled(orphans: seq<PlacementId>, n: nat, done: set<PlacementId>)
    requires n > 0 && Distinct(orphans) && Handled(orphans, n, n, done)
    ensures done == Elements(orphans) && |done| == |orphans|
  {
    DealtPartitions(orphans, n);
    forall o | o in orphans ensures o in done {
      assert Placed(orphans, n, o);
      var j: nat :| j < n && o in Dealt(orphans, n, j);
      assert o in Elements(Dealt(orphans, n, j));
    }
    DistinctSize(orphans);
  }
}
