/**
  The placement protocol as a state machine. The table is written by upserts,
  state changes, requeues, withdrawals, migrations and key deletions, the keys by
  whoever issues, renews or revokes them; commands leave through the outbox and
  through snapshots; nodes answer the commands they were sent, and answers are
  delivered late, repeatedly, out of order or never.
 */
module PlacementProtocol {
  import opened Common
  import opened PlacementTable

  /** The columns of a key that travel with every command about it. */
  datatype KeyColumns = KeyColumns(
    protocol: string,
    transport: string,
    clientId: int,
    revoked: bool,
    validUntil: Time,
    routingOverride: Option<string>)

  datatype VpnKey = VpnKey(columns: KeyColumns, active: bool)

  type Keys = map<KeyId, VpnKey>

  /** A command addressed to the backend itself (`entry` None) or a copy for an entry node. */
  datatype Command = Command(
    placement: PlacementId,
    key: KeyId,
    backend: NodeId,
    version: nat,
    desired: DesiredState,
    about: KeyColumns,
    entry: Option<NodeId>)
  {
    function Recipient(): NodeId {
      if entry.Some? then entry.value else backend
    }

    /** `placement-command:<placement>:<version>[:<entry>]` */
    function MessageId(): (PlacementId, nat, Option<NodeId>) {
      (placement, version, entry)
    }

    function Answer(state: AppliedState): Report {
      Report(Recipient(), placement, version, state)
    }
  }

  function BuildCommand(i: PlacementId, p: Placement, about: KeyColumns, entry: Option<NodeId>): Command {
    Command(i, p.key, p.backend, p.opVersion, p.desired, about, entry)
  }

  predicate LiveKey(keys: Keys, key: KeyId) {
    key in keys && keys[key].active
  }

  /** Commands are built for active rows with an active key. */
  predicate Sendable(t: Table, keys: Keys, i: PlacementId) {
    i in t && t[i].active && LiveKey(keys, t[i].key)
  }

  function CommandFor(t: Table, keys: Keys, i: PlacementId, entry: Option<NodeId>): Command
    requires Sendable(t, keys, i)
  {
    BuildCommand(i, t[i], keys[t[i].key].columns, entry)
  }

  /**
    `issued` collects every identifier ever given to a row, `reports` everything any
    node has said, `accepted` the latest report that landed on each placement.
   */
  datatype State = State(
    table: Table,
    keys: Keys,
    issued: set<PlacementId>,
    outbox: set<Command>,
    snapshots: set<Command>,
    reports: set<Report>,
    accepted: map<PlacementId, Report>)

  function Sent(s: State): set<Command> {
    s.outbox + s.snapshots
  }

  const INITIAL := State(map[], map[], {}, {}, {}, {}, map[])

  datatype Step =
    | DoUpsert(newId: PlacementId, key: KeyId, node: NodeId, desired: DesiredState, sticky: Option<Time>)
    | DoSetDesired(ids: set<PlacementId>, desired: DesiredState)
    | DoRequeue(ids: set<PlacementId>)
    | DoWithdraw(ids: set<PlacementId>)
    | DoMigrate(ids: set<PlacementId>, target: NodeId, after: Table)
    | PutKey(key: KeyId, row: VpnKey)
    | DeleteKey(key: KeyId)
    | Enqueue(ids: set<PlacementId>, entries: set<(NodeId, NodeId)>)
    | Snapshot(ids: set<PlacementId>, entry: Option<NodeId>)
    | Respond(command: Command, state: AppliedState)
    | Deliver(report: Report)

  /** Commands for the sendable rows among `ids`: one for the backend, one for each entry paired with it. */
  function Commands(t: Table, keys: Keys, ids: set<PlacementId>, entries: set<(NodeId, NodeId)>): set<Command> {
    (set i | i in ids && Sendable(t, keys, i) :: CommandFor(t, keys, i, None)) +
    (set i, e | i in ids && e in entries && Sendable(t, keys, i) && e.0 == t[i].backend
      :: CommandFor(t, keys, i, Some(e.1)))
  }

  /**
    What is sent, column by column: for each listed active row with an active key, to its backend and to
    each entry paired with it, the row's own key, backend, version and desired state and the key's columns.
   */
  lemma CommandsExactly(t: Table, keys: Keys, ids: set<PlacementId>, entries: set<(NodeId, NodeId)>, c: Command)
    ensures c in Commands(t, keys, ids, entries) <==>
              && c.placement in ids && c.placement in t
              && var p := t[c.placement];
                 && p.active && p.key in keys && keys[p.key].active
                 && c.key == p.key && c.backend == p.backend && c.version == p.opVersion && c.desired == p.desired
                 && c.about == keys[p.key].columns
                 && (c.entry == None || (p.backend, c.entry.value) in entries)
  {
    var i := c.placement;
    if i in t && Sendable(t, keys, i) && c.entry.Some? {
      var e := (t[i].backend, c.entry.value);
      assert e.0 == t[i].backend && e.1 == c.entry.value;
    }
  }

  /** INSERT ... ON CONFLICT (message_id) DO NOTHING. */
  function EnqueueMany(outbox: set<Command>, items: set<Command>): set<Command> {
    outbox + set c | c in items && forall o :: o in outbox ==> o.MessageId() != c.MessageId()
  }

  /** A step whose guard fails leaves the state alone. */
  ghost function Next(s: State, step: Step): State {
    match step
    case DoUpsert(id, key, node, d, sticky) =>
      if id in s.issued || key !in s.keys then s
      else
        var t := Upsert(s.table, id, key, node, d, sticky);
        s.(table := t, issued := s.issued + t.Keys)
    case DoSetDesired(ids, d) => s.(table := SetDesired(s.table, ids, d))
    case DoRequeue(ids) => s.(table := Requeue(s.table, ids))
    case DoWithdraw(ids) => s.(table := Withdraw(s.table, ids))
    case DoMigrate(ids, target, after) =>
      if IsMigration(s.table, ids, target, after) && !Collides(s.table, ids, target) then s.(table := after) else s
    case PutKey(key, row) => s.(keys := s.keys[key := row])
    case DeleteKey(key) =>
      s.(table := map i | i in s.table && s.table[i].key != key :: s.table[i], keys := s.keys - {key})
    case Enqueue(ids, entries) => s.(outbox := EnqueueMany(s.outbox, Commands(s.table, s.keys, ids, entries)))
    case Snapshot(ids, entry) =>
      s.(snapshots := s.snapshots + set i | i in ids && Sendable(s.table, s.keys, i)
                                          :: CommandFor(s.table, s.keys, i, entry))
    case Respond(c, a) => if c in Sent(s) then s.(reports := s.reports + {c.Answer(a)}) else s
    case Deliver(r) =>
      if r in s.reports && Lands(s.table, r)
      then s.(table := Land(s.table, r), accepted := s.accepted[r.placement := r]) else s
  }

  ghost function Run(s: State, steps: seq<Step>): State
    decreases |steps|
  {
    if steps == [] then s else Run(Next(s, steps[0]), steps[1..])
  }

  // ---- The invariant ---------------------------------------------------------

  /** A command about a row is no newer than the row, and one of the row's version says what the row says. */
  predicate Agrees(c: Command, t: Table) {
    c.placement in t ==>
      var p := t[c.placement];
      c.version <= p.opVersion && (c.version == p.opVersion ==> c == BuildCommand(c.placement, p, c.about, c.entry))
  }

  /** The current version has been acknowledged only by a report of the current backend. */
  predicate Acknowledged(i: PlacementId, p: Placement, accepted: map<PlacementId, Report>) {
    p.appliedVersion == p.opVersion ==>
      i in accepted && accepted[i] == Report(p.backend, i, p.opVersion, p.applied)
  }

  ghost predicate CommandsFaithful(s: State) {
    && (forall c :: c in Sent(s) ==> c.placement in s.issued && Agrees(c, s.table))
    && (forall c, d :: c in Sent(s) && d in Sent(s) && c.placement == d.placement && c.version == d.version
          ==> c == d.(about := c.about, entry := c.entry))
    && (forall c, d :: c in s.outbox && d in s.outbox && c.MessageId() == d.MessageId() ==> c == d)
  }

  ghost predicate ReportsAnswerCommands(s: State) {
    && (forall r :: r in s.reports ==> exists c :: c in Sent(s) && c.Answer(r.state) == r)
    && (forall i :: i in s.accepted ==> s.accepted[i] in s.reports)
  }

  ghost predicate Inv(s: State) {
    && UniqueRows(s.table) && VersionsOrdered(s.table)
    && s.table.Keys <= s.issued
    && CommandsFaithful(s)
    && ReportsAnswerCommands(s)
    && (forall i :: i in s.table ==> Acknowledged(i, s.table[i], s.accepted))
  }

  /** How a statement may change a row: same key, and a new instruction means a new version. */
  predicate Follows(p: Placement, q: Placement) {
    && q.key == p.key && q.appliedVersion == p.appliedVersion
    && (q.opVersion == p.opVersion + 1 || q == p.(active := q.active))
  }

  ghost predicate Evolves(t: Table, t': Table) {
    forall i :: i in t && i in t' ==> Follows(t[i], t'[i])
  }

  /** Any statement that evolves rows and inserts only new, unacknowledged ones keeps the invariant. */
  lemma StatementKeepsInv(s: State, t: Table)
    requires Inv(s) && Evolves(s.table, t)
    requires UniqueRows(t) && VersionsOrdered(t)
    requires forall i :: i in t && i !in s.table ==> i !in s.issued && t[i].appliedVersion < t[i].opVersion
    ensures Inv(s.(table := t, issued := s.issued + t.Keys))
  {
    var s' := s.(table := t, issued := s.issued + t.Keys);
    assert Sent(s') == Sent(s);
    forall c | c in Sent(s') ensures c.placement in s'.issued && Agrees(c, t) {
      assert Agrees(c, s.table);
      if c.placement in t && c.placement in s.table {
        assert Follows(s.table[c.placement], t[c.placement]);
      }
    }
    forall i | i in t ensures Acknowledged(i, t[i], s'.accepted) {
      if i in s.table {
        assert Follows(s.table[i], t[i]) && Acknowledged(i, s.table[i], s.accepted);
      }
    }
  }

  lemma MigrationEvolves(t: Table, ids: set<PlacementId>, target: NodeId, t': Table)
    requires IsMigration(t, ids, target, t')
    ensures Evolves(t, t')
  {
    forall i | i in t && i in t' ensures Follows(t[i], t'[i]) {
      MigrationRow(t, ids, target, i, t'[i]);
    }
  }

  lemma UpsertKeepsInv(s: State, step: Step)
    requires Inv(s) && step.DoUpsert?
    ensures Inv(Next(s, step))
  {
    if step.newId !in s.issued {
      UpsertKeepsTable(s.table, step.newId, step.key, step.node, step.desired, step.sticky);
      StatementKeepsInv(s, Next(s, step).table);
    }
  }

  lemma MigrateKeepsInv(s: State, step: Step)
    requires Inv(s) && step.DoMigrate?
    ensures Inv(Next(s, step))
  {
    if Next(s, step) != s {
      MigrationKeepsTable(s.table, step.ids, step.target, step.after);
      MigrationEvolves(s.table, step.ids, step.target, step.after);
      StatementKeepsInv(s, step.after);
      assert s.issued + step.after.Keys == s.issued;
    }
  }

  lemma KeysIrrelevant(s: State, keys: Keys)
    requires Inv(s)
    ensures Inv(s.(keys := keys))
  {
    assert Sent(s.(keys := keys)) == Sent(s);
  }

  lemma UpdateKeepsInv(s: State, step: Step)
    requires Inv(s)
    requires step.DoSetDesired? || step.DoRequeue? || step.DoWithdraw? || step.PutKey? || step.DeleteKey?
    ensures Inv(Next(s, step))
  {
    var t := Next(s, step).table;
    assert forall i :: i in t ==> i in s.table && Follows(s.table[i], t[i]) && t[i].backend == s.table[i].backend;
    StatementKeepsInv(s, t);
    assert s.issued + t.Keys == s.issued;
    KeysIrrelevant(s.(table := t), Next(s, step).keys);
  }

  /** A command built from the table as it stands agrees with everything sent before. */
  lemma NewCommandsFaithful(s: State, cs: set<Command>)
    requires Inv(s)
    requires forall c :: c in cs ==> c.placement in s.table && c == BuildCommand(c.placement, s.table[c.placement], c.about, c.entry)
    ensures CommandsFaithful(s.(snapshots := s.snapshots + cs))
  {
    var s' := s.(snapshots := s.snapshots + cs);
    forall c | c in Sent(s') ensures c.placement in s'.issued && Agrees(c, s'.table) {
    }
    forall c, d | c in Sent(s') && d in Sent(s') && c.placement == d.placement && c.version == d.version
      ensures c == d.(about := c.about, entry := c.entry)
    {
      assert Agrees(c, s.table) && Agrees(d, s.table);
    }
  }

  /** Every command built at once has its own message id. */
  lemma CommandsHaveOwnIds(t: Table, keys: Keys, ids: set<PlacementId>, entries: set<(NodeId, NodeId)>, c: Command, d: Command)
    requires c in Commands(t, keys, ids, entries) && d in Commands(t, keys, ids, entries)
    requires c.MessageId() == d.MessageId()
    ensures c == d
  {
  }

  lemma SendKeepsInv(s: State, step: Step)
    requires Inv(s)
    requires step.Enqueue? || step.Snapshot?
    ensures Inv(Next(s, step))
  {
    var s' := Next(s, step);
    var cs := if step.Enqueue? then Commands(s.table, s.keys, step.ids, step.entries)
              else set i | i in step.ids && Sendable(s.table, s.keys, i) :: CommandFor(s.table, s.keys, i, step.entry);
    NewCommandsFaithful(s, cs);
    assert Sent(s) <= Sent(s') <= Sent(s.(snapshots := s.snapshots + cs));
    forall c, d | c in s'.outbox && d in s'.outbox && c.MessageId() == d.MessageId() ensures c == d {
      if step.Enqueue? && c !in s.outbox && d !in s.outbox {
        CommandsHaveOwnIds(s.table, s.keys, step.ids, step.entries, c, d);
      }
    }
    assert CommandsFaithful(s');
    forall r | r in s'.reports ensures exists c :: c in Sent(s') && c.Answer(r.state) == r {
      var c :| c in Sent(s) && c.Answer(r.state) == r;
      assert c in Sent(s');
    }
  }

  lemma RespondKeepsInv(s: State, c: Command, a: AppliedState)
    requires Inv(s)
    ensures Inv(Next(s, Respond(c, a)))
  {
    var s' := Next(s, Respond(c, a));
    assert Sent(s') == Sent(s);
    forall r | r in s'.reports ensures exists c :: c in Sent(s') && c.Answer(r.state) == r {
      if r !in s.reports { assert c.Answer(r.state) == r; }
    }
  }

  lemma DeliverKeepsInv(s: State, r: Report)
    requires Inv(s)
    ensures Inv(Next(s, Deliver(r)))
  {
    var s' := Next(s, Deliver(r));
    assert Sent(s') == Sent(s);
    forall c | c in Sent(s') ensures c.placement in s'.issued && Agrees(c, s'.table) {
      assert Agrees(c, s.table);
    }
    forall i | i in s'.table ensures Acknowledged(i, s'.table[i], s'.accepted) {
      assert Acknowledged(i, s.table[i], s.accepted);
    }
  }

  lemma StepKeepsInv(s: State, step: Step)
    requires Inv(s)
    ensures Inv(Next(s, step))
  {
    match step
    case Enqueue(_, _) => SendKeepsInv(s, step);
    case Snapshot(_, _) => SendKeepsInv(s, step);
    case Respond(c, a) => RespondKeepsInv(s, c, a);
    case Deliver(r) => DeliverKeepsInv(s, r);
    case DoUpsert(_, _, _, _, _) => UpsertKeepsInv(s, step);
    case DoMigrate(_, _, _) => MigrateKeepsInv(s, step);
    case _ => UpdateKeepsInv(s, step);
  }

  lemma {:induction false} RunKeepsInv(s: State, steps: seq<Step>)
    requires Inv(s)
    ensures Inv(Run(s, steps))
    decreases |steps|
  {
    if steps != [] {
      StepKeepsInv(s, steps[0]);
      RunKeepsInv(Next(s, steps[0]), steps[1..]);
    }
  }

  // ---- What every run guarantees -----------------------------------------------

  /**
    Protocol safety. In every run, a row shown as applied at its current version was last
    acknowledged by its current backend, in answer to a command that carried exactly the
    row's present key, backend and desired state; and the versions stay ordered.
   */
  lemma ProtocolSafety(steps: seq<Step>, i: PlacementId)
    requires i in Run(INITIAL, steps).table
    ensures var s := Run(INITIAL, steps); var p := s.table[i];
            && 1 <= p.opVersion && 0 <= p.appliedVersion <= p.opVersion
            && (p.applied == Applied && p.appliedVersion == p.opVersion ==>
                  && i in s.accepted
                  && s.accepted[i] == Report(p.backend, i, p.opVersion, Applied)
                  && s.accepted[i] in s.reports
                  && exists c :: && c in Sent(s) && c.placement == i
                                 && (c.entry == None || c.entry == Some(p.backend))
                                 && c.key == p.key && c.backend == p.backend && c.version == p.opVersion && c.desired == p.desired)
  {
    RunKeepsInv(INITIAL, steps);
    var s := Run(INITIAL, steps);
    var p := s.table[i];
    if p.applied == Applied && p.appliedVersion == p.opVersion {
      assert Acknowledged(i, p, s.accepted);
      var c :| c in Sent(s) && c.Answer(Applied) == s.accepted[i];
      assert Agrees(c, s.table);
    }
  }

  /**
    Which answers land. The answer to a command sent at any time in any run is accepted exactly
    when the row still has that version and its recipient is the row's backend; then the command
    says what the row says. Answers to superseded commands, from former backends and from entry
    nodes therefore change nothing.
   */
  lemma LandsExactlyWhenCurrent(steps: seq<Step>, c: Command, a: AppliedState)
    requires c in Sent(Run(INITIAL, steps))
    ensures var s := Run(INITIAL, steps);
            var answer := Report(if c.entry.Some? then c.entry.value else c.backend, c.placement, c.version, a);
            && answer in Next(s, Respond(c, a)).reports
            && (Lands(s.table, answer) <==>
                  && c.placement in s.table
                  && var p := s.table[c.placement];
                     && c.key == p.key && c.backend == p.backend && c.version == p.opVersion && c.desired == p.desired
                     && (c.entry == None || c.entry == Some(p.backend)))
            && (!Lands(s.table, answer) ==> Next(s, Deliver(answer)) == s)
            && (Lands(s.table, answer) && answer in s.reports ==>
                  Next(s, Deliver(answer)).table
                  == s.table[c.placement := s.table[c.placement].(applied := a, appliedVersion := s.table[c.placement].opVersion)])
  {
    RunKeepsInv(INITIAL, steps);
    assert Agrees(c, Run(INITIAL, steps).table);
  }

  /**
    Progress. Whatever happened before, an active row with an active key can be brought to its present
    instruction: enqueued, answered by its backend and delivered, it is applied at its current version.
   */
  lemma AnswerApplies(steps: seq<Step>, i: PlacementId) returns (c: Command)
    requires var s := Run(INITIAL, steps);
             i in s.table && s.table[i].active && s.table[i].key in s.keys && s.keys[s.table[i].key].active
    ensures var s := Run(INITIAL, steps); var p := s.table[i];
            var queued := Next(s, Enqueue({i}, {}));
            var answered := Next(queued, Respond(c, Applied));
            var delivered := Next(answered, Deliver(Report(p.backend, i, p.opVersion, Applied)));
            && c in queued.outbox && c.placement == i && c.entry == None
            && c.backend == p.backend && c.version == p.opVersion && c.desired == p.desired
            && delivered.table == s.table[i := p.(applied := Applied, appliedVersion := p.opVersion)]
  {
    hide Run, Inv, Lands, Land;
    RunKeepsInv(INITIAL, steps);
    var s := Run(INITIAL, steps);
    c := QueuedCommand(s, i);
    DeliveredAnswer(Next(s, Enqueue({i}, {})), c, i);
  }

  lemma QueuedCommand(s: State, i: PlacementId) returns (c: Command)
    requires Inv(s) && Sendable(s.table, s.keys, i)
    ensures var p := s.table[i];
            && c in Next(s, Enqueue({i}, {})).outbox && c.placement == i && c.entry == None
            && c.backend == p.backend && c.version == p.opVersion && c.desired == p.desired
    ensures Next(s, Enqueue({i}, {})).table == s.table
  {
    var m := CommandFor(s.table, s.keys, i, None);
    CommandsExactly(s.table, s.keys, {i}, {}, m);
    if o :| o in s.outbox && o.MessageId() == m.MessageId() {
      c := o;
      assert o in Sent(s) && Agrees(o, s.table);
    } else {
      c := m;
    }
  }

  lemma DeliveredAnswer(s: State, c: Command, i: PlacementId)
    requires c in s.outbox && c.placement == i && c.entry == None && i in s.table
    requires c.backend == s.table[i].backend && c.version == s.table[i].opVersion
    ensures var p := s.table[i];
            Next(Next(s, Respond(c, Applied)), Deliver(Report(p.backend, i, p.opVersion, Applied))).table
            == s.table[i := p.(applied := Applied, appliedVersion := p.opVersion)]
  {
    var p := s.table[i];
    var r := Report(p.backend, i, p.opVersion, Applied);
    var answered := Next(s, Respond(c, Applied));
    assert c in Sent(s) && c.Answer(Applied) == r;
    assert r in answered.reports && answered.table == s.table && Lands(s.table, r);
  }

  /** What each step writes, column by column. */
  lemma StepWrites(s: State, step: Step)
    ensures var s' := Next(s, step);
            match step
            case DoSetDesired(ids, d) =>
              && s' == s.(table := s'.table) && s'.table.Keys == s.table.Keys
              && forall i :: i in s.table ==> var p := s.table[i];
                   s'.table[i] == if i in ids then p.(desired := d, applied := Pending, opVersion := p.opVersion + 1) else p
            case DoRequeue(ids) =>
              && s' == s.(table := s'.table) && s'.table.Keys == s.table.Keys
              && forall i :: i in s.table ==> var p := s.table[i];
                   s'.table[i] == if i in ids then p.(applied := Pending, opVersion := p.opVersion + 1) else p
            case DoWithdraw(ids) =>
              && s' == s.(table := s'.table) && s'.table.Keys == s.table.Keys
              && forall i :: i in s.table ==> var p := s.table[i];
                   s'.table[i] == if i in ids then p.(desired := Inactive, opVersion := p.opVersion + 1) else p
            case DoMigrate(ids, target, after) =>
              s' == s.(table := if IsMigration(s.table, ids, target, after) && !Collides(s.table, ids, target) then after else s.table)
            case PutKey(key, row) => s' == s.(keys := s.keys[key := row])
            case DeleteKey(key) =>
              && s' == s.(table := s'.table, keys := s'.keys) && s'.keys == s.keys - {key}
              && forall i :: (i in s'.table <==> i in s.table && s.table[i].key != key) && (i in s'.table ==> s'.table[i] == s.table[i])
            case Snapshot(ids, entry) =>
              && s' == s.(snapshots := s'.snapshots) && s.snapshots <= s'.snapshots
              && forall i :: i in ids && i in s.table && s.table[i].active && s.table[i].key in s.keys && s.keys[s.table[i].key].active ==>
                   var p := s.table[i];
                   Command(i, p.key, p.backend, p.opVersion, p.desired, s.keys[p.key].columns, entry) in s'.snapshots
            case DoUpsert(id, key, node, d, sticky) =>
              s' == if id in s.issued || key !in s.keys then s
                    else s.(table := Upsert(s.table, id, key, node, d, sticky), issued := s.issued + s'.table.Keys)
            case _ => true
  {
    if step.Snapshot? {
      forall i | i in step.ids && Sendable(s.table, s.keys, i)
        ensures CommandFor(s.table, s.keys, i, step.entry) in Next(s, step).snapshots
      {
      }
    }
  }

  function Deliveries(rs: seq<Report>): seq<Step> {
    seq(|rs|, k requires 0 <= k < |rs| => Deliver(rs[k]))
  }

  /** Landing a batch one report after another is a run of deliveries. */
  lemma {:induction false} BatchIsDeliveries(s: State, rs: seq<Report>)
    requires forall r :: r in rs ==> r in s.reports
    ensures Run(s, Deliveries(rs)).table == LandAll(s.table, rs)
    decreases |rs|
  {
    if rs != [] {
      var s1 := Next(s, Deliver(rs[0]));
      assert s1.table == Land(s.table, rs[0]);
      assert Deliveries(rs)[1..] == Deliveries(rs[1..]);
      BatchIsDeliveries(s1, rs[1..]);
    }
  }

  /**
    Two commands with one placement and version carry one instruction, whoever they are addressed to;
    the outbox never holds two commands under one message id.
   */
  lemma MessageIdsFaithful(steps: seq<Step>, c: Command, d: Command)
    requires c in Sent(Run(INITIAL, steps)) && d in Sent(Run(INITIAL, steps))
    requires c.placement == d.placement && c.version == d.version
    ensures c.backend == d.backend && c.desired == d.desired && c.key == d.key
    ensures c.MessageId() == d.MessageId() && c.about == d.about ==> c == d
    ensures var outbox := Run(INITIAL, steps).outbox;
            c in outbox && d in outbox && c.MessageId() == d.MessageId() ==> c == d
  {
    RunKeepsInv(INITIAL, steps);
  }

  /** Along a run a row's version never falls, and while it stands still so does the instruction. */
  predicate Later(p: Placement, q: Placement) {
    && p.key == q.key && p.opVersion <= q.opVersion && p.appliedVersion <= q.appliedVersion
    && (p.opVersion == q.opVersion ==> p.backend == q.backend && p.desired == q.desired)
  }

  ghost predicate Advances(s: State, s': State) {
    && s.issued <= s'.issued && s.outbox <= s'.outbox && Sent(s) <= Sent(s') && s.reports <= s'.reports
    && (forall i :: i in s'.table && i in s.issued ==> i in s.table && Later(s.table[i], s'.table[i]))
  }

  lemma StepAdvances(s: State, step: Step)
    requires Inv(s)
    ensures Advances(s, Next(s, step))
  {
    if step.DoMigrate? && Next(s, step) != s { MigrationEvolves(s.table, step.ids, step.target, step.after); }
  }

  lemma {:induction false} RunAdvances(s: State, steps: seq<Step>)
    requires Inv(s)
    ensures Advances(s, Run(s, steps))
    decreases |steps|
  {
    if steps != [] {
      var s1 := Next(s, steps[0]);
      StepKeepsInv(s, steps[0]);
      StepAdvances(s, steps[0]);
      RunAdvances(s1, steps[1..]);
      var s2 := Run(s1, steps[1..]);
      forall i | i in s2.table && i in s.issued ensures i in s.table && Later(s.table[i], s2.table[i]) {
        assert i in s1.issued && Later(s1.table[i], s2.table[i]) && Later(s.table[i], s1.table[i]);
      }
    }
  }

  /** Once superseded, always superseded: no continuation of the run lets an old answer land. */
  lemma SupersededForever(before: seq<Step>, after: seq<Step>, c: Command, a: AppliedState)
    requires c in Sent(Run(INITIAL, before))
    requires var t := Run(INITIAL, before).table; c.placement !in t || c.version < t[c.placement].opVersion
    ensures !Lands(Run(Run(INITIAL, before), after).table, c.Answer(a))
  {
    RunKeepsInv(INITIAL, before);
    var s := Run(INITIAL, before);
    RunAdvances(s, after);
    assert c.placement in s.issued;
  }

  // ---- What deduplication by message id can lose ------------------------------------

  lemma {:induction false} RunSplit(s: State, a: seq<Step>, b: seq<Step>)
    ensures Run(s, a + b) == Run(Run(s, a), b)
    decreases |a|
  {
    if a == [] {
      assert a + b == b;
    } else {
      assert (a + b)[1..] == a[1..] + b;
      RunSplit(Next(s, a[0]), a[1..], b);
    }
  }

  ghost function Upon(steps: seq<Step>, k: nat): State
    requires k <= |steps|
  {
    Run(INITIAL, steps[..k])
  }

  lemma UponNext(steps: seq<Step>, k: nat)
    requires k < |steps|
    ensures Upon(steps, k + 1) == Next(Upon(steps, k), steps[k])
  {
    assert steps[..k + 1] == steps[..k] + [steps[k]];
    RunSplit(INITIAL, steps[..k], [steps[k]]);
    assert [steps[k]][1..] == [];
  }

  ghost predicate Queued(s: State, id: (PlacementId, nat, Option<NodeId>)) {
    exists o :: o in s.outbox && o.MessageId() == id
  }

  /** Step `k` of the run is the one that put the message into the outbox. */
  ghost predicate FirstSent(steps: seq<Step>, k: nat, id: (PlacementId, nat, Option<NodeId>))
    requires k < |steps|
  {
    !Queued(Upon(steps, k), id) && Queued(Upon(steps, k + 1), id)
  }

  /** What the key looked like before step `k`. */
  ghost function ColumnsUpon(steps: seq<Step>, k: nat, key: KeyId): Option<KeyColumns>
    requires k <= |steps|
  {
    var keys := Upon(steps, k).keys;
    if key in keys then Some(keys[key].columns) else None
  }

  /** A command enters the outbox with the columns its key has at that moment. */
  lemma EnteredAsBuilt(s: State, step: Step, o: Command)
    requires o in Next(s, step).outbox && o !in s.outbox
    ensures o.key in s.keys && o.about == s.keys[o.key].columns
    ensures forall p :: p in s.outbox ==> p.MessageId() != o.MessageId()
  {
    assert step.Enqueue?;
  }

  lemma {:induction false} SentOnce(steps: seq<Step>, o: Command) returns (k: nat)
    requires o in Run(INITIAL, steps).outbox
    ensures k < |steps| && FirstSent(steps, k, o.MessageId()) && ColumnsUpon(steps, k, o.key) == Some(o.about)
    decreases |steps|
  {
    assert steps != [];
    var n := |steps| - 1;
    UponNext(steps, n);
    assert steps[..n + 1] == steps;
    if o in Upon(steps, n).outbox {
      k := SentOnce(steps[..n], o);
      assert steps[..n][..k] == steps[..k] && steps[..n][..k + 1] == steps[..k + 1];
    } else {
      k := n;
      EnteredAsBuilt(Upon(steps, n), steps[n], o);
    }
  }

  /** The message put into the outbox at step `k` is still there at the end, as it was built then. */
  lemma StaysAsBuilt(steps: seq<Step>, k: nat, id: (PlacementId, nat, Option<NodeId>)) returns (o: Command)
    requires k < |steps| && FirstSent(steps, k, id)
    ensures o in Run(INITIAL, steps).outbox && o.MessageId() == id && ColumnsUpon(steps, k, o.key) == Some(o.about)
  {
    o :| o in Upon(steps, k + 1).outbox && o.MessageId() == id;
    UponNext(steps, k);
    EnteredAsBuilt(Upon(steps, k), steps[k], o);
    assert steps == steps[..k + 1] + steps[k + 1..];
    RunSplit(INITIAL, steps[..k + 1], steps[k + 1..]);
    RunKeepsInv(INITIAL, steps[..k + 1]);
    RunAdvances(Upon(steps, k + 1), steps[k + 1..]);
  }

  /** Whatever is already queued under the message id of one of `items` tells the same about the key. */
  ghost predicate QueuedAlike(s: State, items: set<Command>) {
    forall c, o :: c in items && o in s.outbox && o.MessageId() == c.MessageId() ==> o.about == c.about
  }

  /** Two commands that differ at most in the columns of the key. */
  predicate SameInstruction(c: Command, o: Command) {
    c == o.(about := c.about)
  }

  /** In one state: what is discarded differs from what is queued at most in the columns of the key. */
  lemma DiscardedExactly(s: State, ids: set<PlacementId>, entries: set<(NodeId, NodeId)>)
    requires Inv(s)
    ensures var items := Commands(s.table, s.keys, ids, entries);
            && (EnqueueMany(s.outbox, items) == s.outbox + items <==> QueuedAlike(s, items))
            && (forall c, o :: c in items && o in s.outbox && o.MessageId() == c.MessageId() ==> SameInstruction(c, o))
  {
    var items := Commands(s.table, s.keys, ids, entries);
    forall c, o | c in items && o in s.outbox && o.MessageId() == c.MessageId() ensures SameInstruction(c, o) {
      assert o in Sent(s) && Agrees(o, s.table);
    }
    var kept := EnqueueMany(s.outbox, items);
    if c, o :| c in items && o in s.outbox && o.MessageId() == c.MessageId() && o.about != c.about {
      assert c !in kept && c in s.outbox + items;
    } else {
      forall c | c in items ensures c in kept {
        if o :| o in s.outbox && o.MessageId() == c.MessageId() {
          assert o == c;
        }
      }
    }
  }

  /** The key of each of `items` is now what it was when a message under its id was first sent. */
  ghost predicate KeysAsFirstSent(steps: seq<Step>, items: set<Command>) {
    forall c, k :: c in items && 0 <= k < |steps| && FirstSent(steps, k, c.MessageId()) ==>
      ColumnsUpon(steps, k, c.key) == ColumnsUpon(steps, |steps|, c.key)
  }

  lemma AlikeMeansUnchanged(steps: seq<Step>, s: State, items: set<Command>)
    requires s == Run(INITIAL, steps)
    requires forall c :: c in items ==> ColumnsUpon(steps, |steps|, c.key) == Some(c.about)
    requires forall c, o :: c in items && o in s.outbox && o.MessageId() == c.MessageId() ==> SameInstruction(c, o)
    ensures QueuedAlike(s, items) <==> KeysAsFirstSent(steps, items)
  {
    hide Run, Upon, FirstSent, ColumnsUpon;
    if QueuedAlike(s, items) {
      forall c, k | c in items && 0 <= k < |steps| && FirstSent(steps, k, c.MessageId())
        ensures ColumnsUpon(steps, k, c.key) == ColumnsUpon(steps, |steps|, c.key)
      {
        var o := StaysAsBuilt(steps, k, c.MessageId());
        assert SameInstruction(c, o);
      }
    } else {
      var c, o :| c in items && o in s.outbox && o.MessageId() == c.MessageId() && o.about != c.about;
      var k := SentOnce(steps, o);
      assert SameInstruction(c, o);
    }
  }

  /**
    Over every run: enqueueing with deduplication gives the outbox that enqueueing everything would
    give if and only if the key of each row enqueued again is now what it was when the message of
    the row's version was first sent.
   */
  lemma DeduplicationExactly(steps: seq<Step>, ids: set<PlacementId>, entries: set<(NodeId, NodeId)>)
    ensures var s := Run(INITIAL, steps); var items := Commands(s.table, s.keys, ids, entries);
            Next(s, Enqueue(ids, entries)).outbox == s.outbox + items <==> KeysAsFirstSent(steps, items)
  {
    hide QueuedAlike, KeysAsFirstSent, EnqueueMany;
    RunKeepsInv(INITIAL, steps);
    var s := Run(INITIAL, steps);
    var items := Commands(s.table, s.keys, ids, entries);
    DiscardedExactly(s, ids, entries);
    forall c | c in items ensures ColumnsUpon(steps, |steps|, c.key) == Some(c.about) {
      assert steps[..|steps|] == steps;
    }
    AlikeMeansUnchanged(steps, s, items);
  }
}
