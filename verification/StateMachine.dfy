/** Applying the committed log, and snapshots that stand in for a prefix of it. */
module StateMachine {
  import opened Wrappers
  import opened PartitionTable
  import opened Loads
  import opened ClusterState
  import opened RaftLogModel
  import ComputeRebalance
  import PlanRebalance

  // ── The log ──────────────────────────────────────────────────────────────

  datatype Payload = Blank | Normal(req: Request) | Membership(nodes: set<NodeId>)

  datatype Committed = Committed(id: LogId, payload: Payload)

  datatype StoredMembership = StoredMembership(id: Option<LogId>, nodes: set<NodeId>)

  /** The replicated part of a state machine. */
  datatype Machine = Machine(state: ClusterSnapshot, lastApplied: Option<LogId>, membership: StoredMembership)

  const Empty := Machine(Fresh, None, StoredMembership(None, {}))

  /** One committed entry; nothing comes back from a panic. Registry commands act outside the replicated state. */
  function ApplyEntry(ord: Order, m: Machine, e: Committed): (r: Option<Machine>)
    requires Iterates(ord)
  {
    var stamped := m.state.(lastIndex := e.id.index, lastTerm := e.id.term);
    match e.payload
    case Blank => Some(Machine(stamped, Some(e.id), m.membership))
    case Membership(nodes) => Some(Machine(stamped, Some(e.id), StoredMembership(Some(e.id), nodes)))
    case Normal(req) =>
      if req.Registry? then Some(Machine(stamped, Some(e.id), m.membership))
      else
        match ClusterState.Apply(ord, stamped, req)
        case Panics => None
        case Applied(after, _) => Some(Machine(after, Some(e.id), m.membership))
  }

  function ApplyAll(ord: Order, m: Machine, log: seq<Committed>): (r: Option<Machine>)
    requires Iterates(ord)
    decreases |log|
  {
    if log == [] then Some(m)
    else
      match ApplyEntry(ord, m, log[0])
      case None => None
      case Some(next) => ApplyAll(ord, next, log[1..])
  }

  /** What the proposer of an entry is told. */
  function Told(ord: Order, registry: seq<nat> -> Response, m: Machine, e: Committed): (resp: Response)
    requires Iterates(ord)
  {
    if !e.payload.Normal? then Ok
    else if e.payload.req.Registry? then registry(e.payload.req.payload)
    else
      var r := ClusterState.Apply(ord, m.state.(lastIndex := e.id.index, lastTerm := e.id.term), e.payload.req);
      if r.Panics? then Error else r.response
  }

  function Then(ord: Order, r: Option<Machine>, log: seq<Committed>): (r': Option<Machine>)
    requires Iterates(ord)
  {
    if r.None? then None else ApplyAll(ord, r.value, log)
  }

  lemma {:induction false} ApplyConcat(ord: Order, m: Machine, a: seq<Committed>, b: seq<Committed>)
    requires Iterates(ord)
    ensures ApplyAll(ord, m, a + b) == Then(ord, ApplyAll(ord, m, a), b)
    decreases |a|
  {
    hide Iterates, ApplyEntry;
    if a == [] {
      assert a + b == b;
    } else {
      assert (a + b)[1..] == a[1..] + b;
      var next := ApplyEntry(ord, m, a[0]);
      if next.Some? {
        ApplyConcat(ord, next.value, a[1..], b);
      }
    }
  }

  /** The membership the log leaves: that of its last membership entry. */
  function LastMembership(start: StoredMembership, log: seq<Committed>): (m: StoredMembership) {
    if log == [] then start
    else
      var e := log[|log| - 1];
      if e.payload.Membership? then StoredMembership(Some(e.id), e.payload.nodes)
      else LastMembership(start, log[..|log| - 1])
  }

  /** However the entries went, the machine carries the id of the last one, stamped into the state, and the last
      membership. */
  lemma {:induction false} StampedWithLast(ord: Order, m: Machine, log: seq<Committed>)
    requires Iterates(ord) && ApplyAll(ord, m, log).Some?
    ensures var r := ApplyAll(ord, m, log).value;
            && r.membership == LastMembership(m.membership, log)
            && (log != [] ==> var id := log[|log| - 1].id;
                              r.lastApplied == Some(id) && r.state.lastIndex == id.index && r.state.lastTerm == id.term)
  {
    if log != [] {
      hide ApplyAll, ApplyEntry, Iterates;
      var init, e := log[..|log| - 1], log[|log| - 1];
      assert log == init + [e];
      ApplyConcat(ord, m, init, [e]);
      StampedWithLast(ord, m, init);
      ApplySingle(ord, ApplyAll(ord, m, init).value, e);
      Stamped(ord, ApplyAll(ord, m, init).value, e);
    }
  }

  lemma ApplySingle(ord: Order, m: Machine, e: Committed)
    requires Iterates(ord)
    ensures ApplyAll(ord, m, [e]) == ApplyEntry(ord, m, e)
  {
  }

  lemma Stamped(ord: Order, m: Machine, e: Committed)
    requires Iterates(ord) && ApplyEntry(ord, m, e).Some?
    ensures var r := ApplyEntry(ord, m, e).value;
            && r.lastApplied == Some(e.id) && r.state.lastIndex == e.id.index && r.state.lastTerm == e.id.term
            && r.membership
               == if e.payload.Membership? then StoredMembership(Some(e.id), e.payload.nodes) else m.membership
  {
    hide Iterates, Merge, AfterRebalance;
  }

  predicate NoRebalance(log: seq<Committed>) {
    forall k :: 0 <= k < |log| ==> !(log[k].payload.Normal? && log[k].payload.req.RebalancePartitions?)
  }

  /** Only a rebalance looks at the iteration order: without one, replicas that iterate differently still agree. */
  lemma {:induction false} OrderOnlyMattersToRebalance(ord: Order, ord': Order, m: Machine, log: seq<Committed>)
    requires Iterates(ord) && Iterates(ord') && NoRebalance(log)
    ensures ApplyAll(ord, m, log) == ApplyAll(ord', m, log)
    decreases |log|
  {
    hide Iterates;
    if log != [] {
      var next := ApplyEntry(ord, m, log[0]);
      assert next == ApplyEntry(ord', m, log[0]);
      if next.Some? {
        OrderOnlyMattersToRebalance(ord, ord', next.value, log[1..]);
      }
    }
  }

  // ── Snapshots ────────────────────────────────────────────────────────────

  type Key = nat

  /** Snapshot bytes: under which key they are sealed, if any, and what they decode to, if anything. */
  datatype Data = Data(seal: Option<Key>, content: Option<ClusterSnapshot>)

  datatype Meta = Meta(lastLog: Option<LogId>, membership: StoredMembership)

  datatype Decoded = BadSeal | BadContent | Good(state: ClusterSnapshot)

  function Decode(key: Option<Key>, data: Data): (d: Decoded) {
    if key.Some? && data.seal != key then BadSeal
    else if data.seal != key || data.content.None? then BadContent
    else Good(data.content.value)
  }

  function BuildData(key: Option<Key>, m: Machine): (d: Data) { Data(key, Some(m.state)) }

  function BuildMeta(m: Machine): (meta: Meta) { Meta(m.lastApplied, m.membership) }

  /** The snapshot keys of the store, written together or not at all. */
  type Disk = Option<(Meta, Data)>

  /** The partitions a node serves, collected in iteration order and sorted. */
  function OwnedList(ord: Order, table: Table, node: NodeId): (list: seq<Pid>)
    requires Iterates(ord)
  {
    var own := ComputeRebalance.ActiveOwners(table);
    PlanRebalance.Ascending(On(own, ord(table), node))
  }

  /** The list is exactly the node's partitions, ascending, whatever the iteration order. */
  lemma OwnedListIs(ord: Order, table: Table, node: NodeId)
    requires Iterates(ord)
    ensures PlanRebalance.Ascends(OwnedList(ord, table, node))
    ensures forall p :: p in OwnedList(ord, table, node) <==> p in table && ActiveNode(table[p]) == node
  {
    hide PlanRebalance.Ascending;
    ComputeRebalance.OnOwned(ComputeRebalance.ActiveOwners(table), ord(table), node);
  }

  /** The subscriber's view: the last list sent and how often it was woken. */
  datatype Watch = Watch(node: NodeId, current: seq<Pid>, wakes: nat)

  function Notify(ord: Order, w: Option<Watch>, table: Table): (w': Option<Watch>)
    requires Iterates(ord)
  {
    if w.None? then None
    else
      var owned := OwnedList(ord, table, w.value.node);
      if w.value.current == owned then w else Some(Watch(w.value.node, owned, w.value.wakes + 1))
  }

  /** A node's state machine: the machine, the shared read copy, the watch, the key and the disk (none when not
      persistent). */
  datatype Store = Store(m: Machine, shared: ClusterSnapshot, watch: Option<Watch>, key: Option<Key>,
                         disk: Option<Disk>)

  function AfterApply(ord: Order, st: Store, log: seq<Committed>): (r: Option<Store>)
    requires Iterates(ord)
  {
    match ApplyAll(ord, st.m, log)
    case None => None
    case Some(m) => Some(st.(m := m, shared := m.state, watch := Notify(ord, st.watch, m.state.table)))
  }

  function Persist(disk: Option<Disk>, meta: Meta, data: Data): (d: Option<Disk>) {
    if disk.None? then None else Some(Some((meta, data)))
  }

  /** A builder works on the copy `m` it was handed, whatever the store has done since. */
  function AfterBuild(st: Store, m: Machine): (st': Store) {
    st.(disk := Persist(st.disk, BuildMeta(m), BuildData(st.key, m)))
  }

  /** Unsealing comes first, then the raw bytes are persisted, and only then decoded. */
  function AfterInstall(ord: Order, st: Store, meta: Meta, data: Data): (st': Store)
    requires Iterates(ord)
  {
    match Decode(st.key, data)
    case BadSeal => st
    case BadContent => st.(disk := Persist(st.disk, meta, data))
    case Good(state) =>
      Store(Machine(state, meta.lastLog, meta.membership), state, Notify(ord, st.watch, state.table), st.key,
            Persist(st.disk, meta, data))
  }

  /** A restart from disk; nothing if the persisted snapshot cannot be read. */
  function Hydrate(key: Option<Key>, disk: Disk): (st: Option<Store>) {
    if disk.None? then Some(Store(Empty, Fresh, None, key, Some(disk)))
    else
      var (meta, data) := disk.value;
      match Decode(key, data)
      case Good(state) => Some(Store(Machine(state, meta.lastLog, meta.membership), state, None, key, Some(disk)))
      case _ => None
  }

  /** Installing a snapshot puts the machine where its builder was. */
  lemma InstallRestores(ord: Order, st: Store, m: Machine)
    requires Iterates(ord)
    ensures var st' := AfterInstall(ord, st, BuildMeta(m), BuildData(st.key, m));
            st'.m == m && st'.shared == m.state && st'.watch == Notify(ord, st.watch, m.state.table)
  {
  }

  // ── Replicas ─────────────────────────────────────────────────────────────

  /** What can happen to a replica of the log: apply the next entries, hand a copy to a snapshot builder, have the
      builder finish, receive the snapshot of a replica that had applied `at` entries, get a watch holding some list, or
      restart. */
  datatype Event =
    | ApplyNext(count: nat)
    | TakeBuilder
    | FinishBuild
    | Receive(at: nat)
    | InstallWatch(node: NodeId, list: seq<Pid>)
    | Restart

  /** A store; how much of the log it has applied; the copy the builder holds and how much that covers; how much the
      persisted snapshot covers; and whether anything was published since the watch was installed. */
  datatype Replica = Replica(st: Store, applied: nat, builder: Option<(Machine, nat)>, saved: nat, published: bool)

  /** A fresh replica. */
  function Start(key: Option<Key>, persistent: bool): (r: Replica) {
    Replica(Store(Empty, Fresh, None, key, if persistent then Some(None) else None), 0, None, 0, false)
  }

  ghost predicate Possible(ord: Order, log: seq<Committed>, r: Replica, e: Event)
    requires Iterates(ord)
  {
    match e
    case ApplyNext(n) => r.applied + n <= |log| && ApplyAll(ord, Empty, log[..r.applied + n]).Some?
    case FinishBuild => r.builder.Some?
    case Receive(at) => at <= |log| && ApplyAll(ord, Empty, log[..at]).Some?
    case Restart => r.st.disk.None? || Hydrated(r.st.key, r.st.disk)
    case _ => true
  }

  predicate Hydrated(key: Option<Key>, disk: Option<Disk>) {
    disk.Some? && Hydrate(key, disk.value).Some?
  }

  /** What the persisted snapshot covers after a write of one that covers `at`. */
  function SavedAfter(r: Replica, at: nat): (n: nat) {
    if r.st.disk.Some? then at else r.saved
  }

  ghost function Next(ord: Order, log: seq<Committed>, r: Replica, e: Event): (r': Option<Replica>)
    requires Iterates(ord)
  {
    match e
    case ApplyNext(n) =>
      if r.applied + n > |log| then None
      else
        var st := AfterApply(ord, r.st, log[r.applied..r.applied + n]);
        if st.None? then None else Some(r.(st := st.value, applied := r.applied + n, published := true))
    case TakeBuilder => Some(r.(builder := Some((r.st.m, r.applied))))
    case FinishBuild =>
      if r.builder.None? then None
      else
        var (m, at) := r.builder.value;
        Some(r.(st := AfterBuild(r.st, m), builder := None, saved := SavedAfter(r, at)))
    case Receive(at) =>
      if at > |log| then None
      else
        var m := ApplyAll(ord, Empty, log[..at]);
        if m.None? then None
        else
          var st := AfterInstall(ord, r.st, BuildMeta(m.value), BuildData(r.st.key, m.value));
          Some(r.(st := st, applied := at, saved := SavedAfter(r, at), published := true))
    case InstallWatch(node, list) => Some(r.(st := r.st.(watch := Some(Watch(node, list, 0))), published := false))
    case Restart =>
      if r.st.disk.None? then Some(Start(r.st.key, false))
      else
        var st := Hydrate(r.st.key, r.st.disk.value);
        if st.None? then None else Some(Replica(st.value, r.saved, None, r.saved, false))
  }

  ghost function Run(ord: Order, log: seq<Committed>, r: Replica, es: seq<Event>): (r': Option<Replica>)
    requires Iterates(ord)
    decreases |es|
  {
    if es == [] then Some(r)
    else
      match Next(ord, log, r, es[0])
      case None => None
      case Some(next) => Run(ord, log, next, es[1..])
  }

  /** The disk, if there is one, holds the fold of the saved prefix. */
  ghost predicate DiskInStep(ord: Order, log: seq<Committed>, r: Replica)
    requires Iterates(ord)
  {
    && r.saved <= |log|
    && if r.st.disk.None? || r.st.disk.value.None? then r.saved == 0
       else
         var (meta, data) := r.st.disk.value.value;
         var m := ApplyAll(ord, Empty, log[..r.saved]);
         m.Some? && meta == BuildMeta(m.value) && data == BuildData(r.st.key, m.value)
  }

  /** Since the last apply or install, a watch that was there shows exactly the node's partitions. */
  ghost predicate WatchInStep(ord: Order, r: Replica)
    requires Iterates(ord)
  {
    r.published && r.st.watch.Some? ==>
      r.st.watch.value.current == OwnedList(ord, r.st.m.state.table, r.st.watch.value.node)
  }

  /** The machine is the fold of the applied prefix and the read copy its state; the builder and the disk hold the folds
      of theirs; and the watch is current. */
  ghost predicate InStep(ord: Order, log: seq<Committed>, r: Replica)
    requires Iterates(ord)
  {
    && r.applied <= |log| && ApplyAll(ord, Empty, log[..r.applied]) == Some(r.st.m)
    && r.st.shared == r.st.m.state
    && (r.builder.Some? ==>
          r.builder.value.1 <= |log| && ApplyAll(ord, Empty, log[..r.builder.value.1]) == Some(r.builder.value.0))
    && DiskInStep(ord, log, r) && WatchInStep(ord, r)
  }

  lemma ApplyNextInStep(ord: Order, log: seq<Committed>, r: Replica, n: nat)
    requires Iterates(ord) && InStep(ord, log, r) && r.applied + n <= |log|
    ensures Then(ord, Some(r.st.m), log[r.applied..r.applied + n]) == ApplyAll(ord, Empty, log[..r.applied + n])
  {
    hide Iterates, ApplyAll;
    assert log[..r.applied + n] == log[..r.applied] + log[r.applied..r.applied + n];
    ApplyConcat(ord, Empty, log[..r.applied], log[r.applied..r.applied + n]);
  }

  /** Every event that can happen keeps a replica in step, and an event fails only where the log itself panics. */
  lemma NextKeepsInStep(ord: Order, log: seq<Committed>, r: Replica, e: Event)
    requires Iterates(ord) && InStep(ord, log, r)
    ensures Next(ord, log, r, e).Some? <==> Possible(ord, log, r, e)
    ensures Next(ord, log, r, e).Some? ==> InStep(ord, log, Next(ord, log, r, e).value)
    ensures Possible(ord, log, r, Restart)
  {
    hide Iterates, ApplyAll, OwnedList;
    NothingApplied(ord, log);
    if e.ApplyNext? && r.applied + e.count <= |log| {
      ApplyNextInStep(ord, log, r, e.count);
    }
  }

  lemma NothingApplied(ord: Order, log: seq<Committed>)
    requires Iterates(ord)
    ensures ApplyAll(ord, Empty, log[..0]) == Some(Empty)
  {
  }

  /** In every run of applies, snapshots built while applying goes on, received snapshots, watches and restarts, with
      or without a disk, a replica equals the fold of the prefix it has applied and its watch is current. */
  lemma {:induction false} RunsStayInStep(ord: Order, log: seq<Committed>, r: Replica, es: seq<Event>)
    requires Iterates(ord) && InStep(ord, log, r) && Run(ord, log, r, es).Some?
    ensures InStep(ord, log, Run(ord, log, r, es).value)
    decreases |es|
  {
    hide Iterates, InStep, Next;
    if es != [] {
      NextKeepsInStep(ord, log, r, es[0]);
      RunsStayInStep(ord, log, Next(ord, log, r, es[0]).value, es[1..]);
    }
  }

  /** A node keeps its disk and its key through everything that can happen to it, or goes on without one. */
  lemma {:induction false} DiskAndKeyStay(ord: Order, log: seq<Committed>, r: Replica, es: seq<Event>)
    requires Iterates(ord) && Run(ord, log, r, es).Some?
    ensures var r' := Run(ord, log, r, es).value;
            (r'.st.disk.Some? <==> r.st.disk.Some?) && r'.st.key == r.st.key
    decreases |es|
  {
    hide Iterates, ApplyAll, Notify;
    if es != [] {
      DiskAndKeyStay(ord, log, Next(ord, log, r, es[0]).value, es[1..]);
    }
  }

  lemma StartsInStep(ord: Order, log: seq<Committed>, key: Option<Key>, persistent: bool)
    requires Iterates(ord)
    ensures InStep(ord, log, Start(key, persistent))
  {
    hide Iterates, ApplyAll;
    NothingApplied(ord, log);
  }

  /** From a fresh start, two replicas that have applied as much of the log, however they got there and whether or not
      they persist, are equal; and if the log holds no rebalance, whatever their iteration orders. */
  lemma ReplicasConverge(ord: Order, ord': Order, log: seq<Committed>, r: Replica, r': Replica, es: seq<Event>,
                         es': seq<Event>)
    requires Iterates(ord) && Iterates(ord') && (ord == ord' || NoRebalance(log))
    requires exists key, disk :: r == Start(key, disk)
    requires exists key, disk :: r' == Start(key, disk)
    requires Run(ord, log, r, es).Some? && Run(ord', log, r', es').Some?
    requires Run(ord, log, r, es).value.applied == Run(ord', log, r', es').value.applied
    ensures Run(ord, log, r, es).value.st.m == Run(ord', log, r', es').value.st.m
  {
    hide Iterates, Run, ApplyAll, Start;
    var key, disk :| r == Start(key, disk);
    var key', disk' :| r' == Start(key', disk');
    StartsInStep(ord, log, key, disk);
    StartsInStep(ord', log, key', disk');
    RunsStayInStep(ord, log, r, es);
    RunsStayInStep(ord', log, r', es');
    var prefix := log[..Run(ord, log, r, es).value.applied];
    if ord != ord' {
      OrderOnlyMattersToRebalance(ord, ord', Empty, prefix);
    }
  }

  // ── A builder that finishes late ─────────────────────────────────────────

  predicate Meanwhile(e: Event) {
    e.ApplyNext? || e.Receive? || e.InstallWatch?
  }

  /** The cut of the last received snapshot, if any. */
  function LastReceived(es: seq<Event>, before: nat): (at: nat)
    decreases |es|
  {
    if es == [] then before else LastReceived(es[1..], if es[0].Receive? then es[0].at else before)
  }

  lemma {:induction false} MeanwhileSaves(ord: Order, log: seq<Committed>, r: Replica, es: seq<Event>)
    requires Iterates(ord) && r.st.disk.Some? && (forall k :: 0 <= k < |es| ==> Meanwhile(es[k]))
    requires Run(ord, log, r, es).Some?
    ensures var r' := Run(ord, log, r, es).value;
            r'.saved == LastReceived(es, r.saved) && r'.builder == r.builder && r'.st.disk.Some?
    decreases |es|
  {
    hide Iterates, ApplyAll, Notify;
    if es != [] {
      MeanwhileSaves(ord, log, Next(ord, log, r, es[0]).value, es[1..]);
    }
  }

  /** A builder that finishes after a snapshot was received moves what the disk covers backwards exactly when the
      snapshot received last, or the one saved before, covers more than the builder's copy. */
  lemma LateBuilderIff(ord: Order, log: seq<Committed>, r: Replica, es: seq<Event>)
    requires Iterates(ord) && r.st.disk.Some? && (forall k :: 0 <= k < |es| ==> Meanwhile(es[k]))
    requires Run(ord, log, Next(ord, log, r, TakeBuilder).value, es).Some?
    ensures var r' := Run(ord, log, Next(ord, log, r, TakeBuilder).value, es).value;
            var r'' := Next(ord, log, r', FinishBuild);
            && r''.Some? && r''.value.saved == r.applied
            && (r''.value.saved < r'.saved <==> LastReceived(es, r.saved) > r.applied)
  {
    hide Iterates, ApplyAll, Run;
    MeanwhileSaves(ord, log, Next(ord, log, r, TakeBuilder).value, es);
  }

  // ── Snapshots and the log ────────────────────────────────────────────────

  /** A snapshot at any cut, installed or hydrated, and then the rest of the log, is the whole log: panics included. */
  lemma SnapshotThenTail(ord: Order, log: seq<Committed>, cut: nat, st: Store, key: Option<Key>)
    requires Iterates(ord) && cut <= |log| && ApplyAll(ord, Empty, log[..cut]).Some?
    ensures var m := ApplyAll(ord, Empty, log[..cut]).value;
            var installed := AfterInstall(ord, st, BuildMeta(m), BuildData(st.key, m));
            var restarted := Hydrate(key, Some((BuildMeta(m), BuildData(key, m))));
            && ApplyAll(ord, installed.m, log[cut..]) == ApplyAll(ord, Empty, log)
            && restarted.Some? && ApplyAll(ord, restarted.value.m, log[cut..]) == ApplyAll(ord, Empty, log)
  {
    hide Iterates, ApplyAll, Notify;
    assert log == log[..cut] + log[cut..];
    ApplyConcat(ord, Empty, log[..cut], log[cut..]);
  }

  /** After an apply or an install that took, an installed watch shows exactly the node's partitions, and the
      subscriber is woken exactly when they changed. */
  lemma WatchIsCurrent(ord: Order, st: Store, log: seq<Committed>, meta: Meta, data: Data)
    requires Iterates(ord) && st.watch.Some?
    ensures var r := AfterApply(ord, st, log);
            r.Some? ==> Shows(ord, st.watch, r.value)
    ensures Decode(st.key, data).Good? ==> Shows(ord, st.watch, AfterInstall(ord, st, meta, data))
  {
    hide Iterates, ApplyAll, OwnedList;
  }

  ghost predicate Shows(ord: Order, before: Option<Watch>, st: Store)
    requires Iterates(ord) && before.Some?
  {
    && st.watch.Some? && st.watch.value.node == before.value.node && st.shared == st.m.state
    && st.watch.value.current == OwnedList(ord, st.m.state.table, before.value.node)
    && (st.watch.value.wakes == before.value.wakes + 1 <==> before.value.current != st.watch.value.current)
    && (st.watch.value.wakes == before.value.wakes <==> before.value.current == st.watch.value.current)
  }

  /** What installing does, by the node's key, the seal on the bytes and whether they decode. Bytes under a seal that is
      not the node's leave it as it was if it has a key. Otherwise they are persisted, and a node with a disk can then
      restart exactly when they have its seal and decode; exactly then, too, the machine is what they hold. */
  lemma InstallOutcome(ord: Order, st: Store, meta: Meta, data: Data)
    requires Iterates(ord)
    ensures var st' := AfterInstall(ord, st, meta, data);
            var readable := data.seal == st.key && data.content.Some?;
            && (st.key.Some? && data.seal != st.key ==> st' == st)
            && (!(st.key.Some? && data.seal != st.key) && st.disk.Some? ==>
                  st'.disk == Some(Some((meta, data))) && (Hydrated(st.key, st'.disk) <==> readable))
            && (st.disk.None? ==> st'.disk.None?)
            && (readable ==> st'.m == Machine(data.content.value, meta.lastLog, meta.membership))
            && (!readable ==> st'.m == st.m && st'.shared == st.shared && st'.watch == st.watch)
            && (readable && st.disk.Some? ==> Hydrate(st.key, st'.disk.value).value.m == st'.m)
  {
    hide Iterates, OwnedList;
  }

  /** Bytes that pass a node's seal and do not decode: a fresh node persists them, stays as it is, and cannot
      restart. */
  lemma UndecodableBlocksRestart(ord: Order, key: Option<Key>, meta: Meta)
    requires Iterates(ord)
    ensures var st, data := Start(key, true).st, Data(key, None);
            && Hydrated(key, st.disk)
            && AfterInstall(ord, st, meta, data) == st.(disk := Some(Some((meta, data))))
            && !Hydrated(key, AfterInstall(ord, st, meta, data).disk)
  {
    hide Iterates;
  }
}
