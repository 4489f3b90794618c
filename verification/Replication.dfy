/** Server and clients together: what a client reads at a snapshot is what the server had committed,
    and nothing that happens while a view is open changes what it sees. */
module Replication {
  import opened Common
  import opened OrderedSets
  import opened Database
  import opened VersionHistory
  import opened VersionedIdSets
  import opened AllVersionedObjects
  import opened Replica
  import opened CommitProtocol

  datatype ClientStep = Deliver(t: Transaction) | OpenView(id: TransactionId) | CloseView(id: TransactionId)

  /** Transactions arrive in order and above `v`. */
  ghost predicate InOrder(log: Log, current: TransactionId, steps: seq<ClientStep>, v: TransactionId)
    decreases steps
  {
    steps != [] ==>
      var step := steps[0];
      && (step.Deliver? ==> 0 <= step.t.tid && current <= step.t.tid && v < step.t.tid && Agrees(log, step.t))
      && InOrder(if step.Deliver? then log + [step.t] else log, if step.Deliver? then step.t.tid else current,
                 steps[1..], v)
  }

  /** How many more views were opened at `v` than closed. */
  function Balance(steps: seq<ClientStep>, v: TransactionId): int {
    multiset(steps)[OpenView(v)] as int - multiset(steps)[CloseView(v)]
  }

  lemma NothingOpened()
    ensures forall v :: Balance([], v) == 0
  {
  }

  function Change(step: ClientStep, v: TransactionId): int {
    if step == OpenView(v) then 1 else if step == CloseView(v) then -1 else 0
  }

  lemma BalanceStep(steps: seq<ClientStep>, n: nat)
    requires n < |steps|
    ensures forall v :: Balance(steps[..n + 1], v) == Balance(steps[..n], v) + Change(steps[n], v)
  {
    assert steps[..n + 1] == steps[..n] + [steps[n]];
  }

  lemma MinimumStaysBelow(minimum: TransactionId, refs: map<TransactionId, int>, current: TransactionId,
                          v: TransactionId)
    requires v in refs && minimum <= v
    ensures minimum <= NewMinimum(minimum, refs, current) <= v
  {
  }

  method TakeClientStep(c: DatabaseConnectionState, step: ClientStep, v: TransactionId)
    requires c.Valid() && c.minTransactionId <= v
    requires step.Deliver? ==>
               0 <= step.t.tid && c.curTransactionId <= step.t.tid && v < step.t.tid && Agrees(c.log, step.t)
    requires 0 < CountAt(c.versionRefcounts, v) && 0 < CountAt(c.versionRefcounts, v) + Change(step, v)
    modifies c, c.objects, c.objects.fieldToVersionedObjects.Values, c.objects.indexToVersionedIdSets.Values
    ensures c.Valid() && old(c.minTransactionId) <= c.minTransactionId <= v
    ensures c.log == if step.Deliver? then old(c.log) + [step.t] else old(c.log)
    ensures c.curTransactionId == if step.Deliver? then step.t.tid else old(c.curTransactionId)
    ensures StateAt(c.log, v) == StateAt(old(c.log), v)
    ensures forall u :: CountAt(c.versionRefcounts, u) == old(CountAt(c.versionRefcounts, u)) + Change(step, u)
    ensures fresh(c.objects.fieldToVersionedObjects.Values - old(c.objects.fieldToVersionedObjects.Values))
    ensures fresh(c.objects.indexToVersionedIdSets.Values - old(c.objects.indexToVersionedIdSets.Values))
  {
    hide StateAt, DatabaseConnectionState.ValidUpTo, Agrees, Acquired, Released, NewMinimum;
    match step {
      case Deliver(t) =>
        StateAtAppend(c.log, t, v);
        MinimumStaysBelow(c.minTransactionId, c.versionRefcounts, t.tid, v);
        c.IncomingTransaction(t);
      case OpenView(id) =>
        c.IncrefVersion(id);
      case CloseView(id) =>
        assert v in Released(c.versionRefcounts, id);
        MinimumStaysBelow(c.minTransactionId, Released(c.versionRefcounts, id), c.curTransactionId, v);
        c.DecrefVersion(id);
    }
  }

  /** Snapshot stability: through any run of deliveries, of views opening and closing, and of the garbage collection
      these trigger, every field and every index reads the same at `v`, as long as of the views opened there one
      is still open at each point. */
  method RunWithOpenView(c: DatabaseConnectionState, steps: seq<ClientStep>, v: TransactionId)
    requires c.Valid() && c.minTransactionId <= v
    requires InOrder(c.log, c.curTransactionId, steps, v)
    requires forall i :: 0 <= i <= |steps| ==> 0 < CountAt(c.versionRefcounts, v) + Balance(steps[..i], v)
    modifies c, c.objects, c.objects.fieldToVersionedObjects.Values, c.objects.indexToVersionedIdSets.Values
    ensures c.Valid() && old(c.minTransactionId) <= c.minTransactionId <= v
    ensures forall k :: c.FieldAt(k, v) == old(c.FieldAt(k, v))
    ensures forall i, o :: Moment(v, o) in c.objects.MembersOf(i) <==> old(Moment(v, o) in c.objects.MembersOf(i))
    ensures forall u :: CountAt(c.versionRefcounts, u) == old(CountAt(c.versionRefcounts, u)) + Balance(steps, u)
  {
    hide StateAt, DatabaseConnectionState.ValidUpTo, DatabaseConnectionState.Valid, Agrees, Change, CountAt, Balance;
    NothingOpened();
    SnapshotIsLogged(c, v);
    assert steps[..0] == [];
    var n := 0;
    while n < |steps|
      invariant 0 <= n <= |steps|
      invariant c.Valid() && old(c.minTransactionId) <= c.minTransactionId <= v
      invariant InOrder(c.log, c.curTransactionId, steps[n..], v)
      invariant forall u ::
                  CountAt(c.versionRefcounts, u) == old(CountAt(c.versionRefcounts, u)) + Balance(steps[..n], u)
      invariant StateAt(c.log, v) == StateAt(old(c.log), v)
      invariant fresh(c.objects.fieldToVersionedObjects.Values - old(c.objects.fieldToVersionedObjects.Values))
      invariant fresh(c.objects.indexToVersionedIdSets.Values - old(c.objects.indexToVersionedIdSets.Values))
    {
      assert steps[n..][0] == steps[n] && steps[n..][1..] == steps[n + 1..];
      BalanceStep(steps, n);
      assert 0 < old(CountAt(c.versionRefcounts, v)) + Balance(steps[..n], v);
      assert 0 < old(CountAt(c.versionRefcounts, v)) + Balance(steps[..n + 1], v);
      TakeClientStep(c, steps[n], v);
      n := n + 1;
    }
    assert steps[..n] == steps;
    SnapshotIsLogged(c, v);
  }

  /** While no view is open nothing is kept that nobody can read: of each object only the last version, and none if it
      is deleted, but for what the latest transaction has hidden. */
  method ApplyWithoutViews(c: DatabaseConnectionState, ts: seq<Transaction>)
    requires c.Valid() && c.versionRefcounts == map[]
    requires c.minTransactionId == c.curTransactionId && c.objects.Awaited()
    requires forall i :: 0 <= i < |ts| ==> 0 <= ts[i].tid && c.curTransactionId < ts[i].tid
    requires forall i, j :: 0 <= i < j < |ts| ==> ts[i].tid < ts[j].tid
    modifies c, c.objects, c.objects.fieldToVersionedObjects.Values, c.objects.indexToVersionedIdSets.Values
    ensures c.Valid() && c.log == old(c.log) + ts && c.objects.Awaited() && c.versionRefcounts == map[]
    ensures c.minTransactionId == c.curTransactionId
    ensures ts != [] ==> forall f, o, u, n ::
              Hides(c.objects.HistOf(f), o, u, n) ==> n == ts[|ts| - 1].tid
    ensures ts != [] ==> forall f, o, d ::
              IsTop(c.objects.HistOf(f), o, d) && c.objects.HistOf(f)[ObjectAndVersion(o, d)].Deleted? ==>
                d == ts[|ts| - 1].tid
  {
    hide StateAt, DatabaseConnectionState.Valid, VersionedObjects.Awaited, HiddenSince, Hides, IsTop;
    var n := 0;
    while n < |ts|
      invariant 0 <= n <= |ts| && c.Valid() && c.log == old(c.log) + ts[..n]
      invariant c.objects.Awaited() && c.versionRefcounts == map[] && c.minTransactionId == c.curTransactionId
      invariant forall i :: n <= i < |ts| ==> c.curTransactionId < ts[i].tid
      invariant 0 < n ==> c.curTransactionId == ts[n - 1].tid
                          && forall f :: HiddenSince(c.objects.HistOf(f), c.curTransactionId)
      invariant fresh(c.objects.fieldToVersionedObjects.Values - old(c.objects.fieldToVersionedObjects.Values))
      invariant fresh(c.objects.indexToVersionedIdSets.Values - old(c.objects.indexToVersionedIdSets.Values))
    {
      ApplyNext(c, ts[n]);
      assert ts[..n + 1] == ts[..n] + [ts[n]];
      n := n + 1;
    }
    assert ts[..n] == ts;
    if ts != [] {
      OnlyLatestHides(c);
    }
  }

  method ApplyNext(c: DatabaseConnectionState, t: Transaction)
    requires c.Valid() && c.versionRefcounts == map[]
    requires c.minTransactionId == c.curTransactionId < t.tid && 0 <= t.tid && c.objects.Awaited()
    modifies c, c.objects, c.objects.fieldToVersionedObjects.Values, c.objects.indexToVersionedIdSets.Values
    ensures c.Valid() && c.log == old(c.log) + [t] && c.versionRefcounts == map[]
    ensures c.minTransactionId == c.curTransactionId == t.tid && c.objects.Awaited()
    ensures forall f :: HiddenSince(c.objects.HistOf(f), t.tid)
    ensures fresh(c.objects.fieldToVersionedObjects.Values - old(c.objects.fieldToVersionedObjects.Values))
    ensures fresh(c.objects.indexToVersionedIdSets.Values - old(c.objects.indexToVersionedIdSets.Values))
  {
    hide StateAt, DatabaseConnectionState.ValidUpTo, Agrees, VersionedObjects.Awaited, HiddenSince;
    NoneIsLater(c);
    NewNumberAgrees(c.log, t);
    c.IncomingTransaction(t);
  }

  lemma NoneIsLater(c: DatabaseConnectionState)
    requires c.Valid()
    ensures forall t :: t in c.log ==> t.tid <= c.curTransactionId
  {
  }

  lemma OnlyLatestHides(c: DatabaseConnectionState)
    requires c.Valid() && forall f :: HiddenSince(c.objects.HistOf(f), c.curTransactionId)
    ensures forall f, o, u, n ::
              Hides(c.objects.HistOf(f), o, u, n) ==> n == c.curTransactionId
    ensures forall f, o, d ::
              IsTop(c.objects.HistOf(f), o, d) && c.objects.HistOf(f)[ObjectAndVersion(o, d)].Deleted? ==>
                d == c.curTransactionId
  {
    forall f
      ensures forall e :: e in c.objects.HistOf(f) ==> e.version <= c.curTransactionId
      ensures forall o :: ObjectHiddenSince(c.objects.HistOf(f), c.curTransactionId, o)
    {
    }
    hide VersionedObjects.HistOf, StateAt, DatabaseConnectionState.Valid;
    forall f, o, u, n | ObjectAndVersion(o, u) in c.objects.HistOf(f) && ObjectAndVersion(o, n) in c.objects.HistOf(f)
                        && u < n
      ensures n == c.curTransactionId
    {
      assert Hides(c.objects.HistOf(f), o, u, n) && ObjectHiddenSince(c.objects.HistOf(f), c.curTransactionId, o);
    }
    forall f, o, d | IsTop(c.objects.HistOf(f), o, d) && c.objects.HistOf(f)[ObjectAndVersion(o, d)].Deleted?
      ensures d == c.curTransactionId
    {
      assert EndsDeleted(c.objects.HistOf(f), o, d) && ObjectHiddenSince(c.objects.HistOf(f), c.curTransactionId, o);
    }
  }

  lemma SnapshotIsLogged(c: DatabaseConnectionState, v: TransactionId)
    requires c.Valid() && c.minTransactionId <= v
    ensures forall k :: c.FieldAt(k, v) == Lookup(StateAt(c.log, v).fields, k)
    ensures forall i, o :: Moment(v, o) in c.objects.MembersOf(i) <==> Membership(i, o) in StateAt(c.log, v).members
  {
  }

  /** The channel can rely on the field or index: its subscription data was not outdated, and every change since
      came with one to a field it is subscribed to. For a plain field the latter is no condition at all. */
  ghost predicate Relied(s: Server, m: Mirror)
    reads s
  {
    m in s.mirrors && m.channel !in s.stale && Carried(s.log, m.fieldId, m.since, m.via)
  }

  /** The replica theorem. A client has applied a first part of what its channel was sent, in order. At
      every snapshot it still keeps, and for which nothing is under way, the fields and indices it follows
      read exactly as the server had committed them at that transaction. */
  lemma ClientSnapshotIsServerState(s: Server, c: DatabaseConnectionState, m: Mirror, undelivered: Log,
                                    v: TransactionId)
    requires s.Valid() && c.Valid()
    requires Relied(s, m) && s.sent[m.channel] == c.log + undelivered
    requires m.since <= v && c.minTransactionId <= v && forall t :: t in undelivered ==> v < t.tid
    ensures forall k: ObjectFieldId :: k.fieldId == m.fieldId ==> c.FieldAt(k, v) == Lookup(StateAt(s.log, v).fields, k)
    ensures forall i: IndexId, o :: i.fieldId == m.fieldId ==>
              (Moment(v, o) in c.objects.MembersOf(i) <==> Membership(i, o) in StateAt(s.log, v).members)
  {
    hide StateAt, ReadAt, Server.StoreValid, Tracks, Serializable, Carried, InStep;
    LaterTransactionsInvisible(c.log, undelivered, v);
    assert Mirrors(s.sent[m.channel], s.log, m.fieldId, m.since);
    assert SameField(StateAt(c.log, v), StateAt(s.log, v), m.fieldId);
    SnapshotIsLogged(c, v);
  }

  /** The next message of its channel is always one the client may apply, so a client that applies
      what it is sent keeps all its invariants. */
  lemma NextMessageIsAllowed(s: Server, c: DatabaseConnectionState, channel: ChannelId, t: Transaction, rest: Log)
    requires s.Valid() && c.Valid()
    requires channel in s.sent && channel !in s.stale && s.sent[channel] == c.log + [t] + rest
    ensures 0 <= t.tid && c.curTransactionId <= t.tid && Agrees(c.log, t)
  {
    hide StateAt, Agrees, Server.StoreValid, MirrorsOn, Tracks, Serializable, DatabaseConnectionState.ValidUpTo;
    var n := |c.log|;
    assert InStep(s.sent[channel], s.curTransactionNum, Replay(s.log));
    assert DeliverableAt(s.sent[channel], n);
    assert s.sent[channel][..n] == c.log && s.sent[channel][n] == t;
  }

  /** A client that applies all it was sent reads, of every field and index it follows, what is committed now. */
  method CatchUp(s: Server, c: DatabaseConnectionState, channel: ChannelId, applied: nat)
    requires s.Valid() && c.Valid()
    requires channel in s.sent && channel !in s.stale && applied <= |s.sent[channel]|
             && c.log == s.sent[channel][..applied]
    modifies c, c.objects, c.objects.fieldToVersionedObjects.Values, c.objects.indexToVersionedIdSets.Values
    ensures s.Valid() && c.Valid() && c.log == s.sent[channel]
    ensures forall m, k: ObjectFieldId :: Relied(s, m) && m.channel == channel && k.fieldId == m.fieldId ==>
              c.FieldAt(k, s.curTransactionNum) == Lookup(Replay(s.log).fields, k)
    ensures forall m, i: IndexId, o :: Relied(s, m) && m.channel == channel && i.fieldId == m.fieldId ==>
              (Moment(s.curTransactionNum, o) in c.objects.MembersOf(i) <==> Membership(i, o) in Replay(s.log).members)
  {
    hide StateAt, Replay, Agrees, Server.Valid, DatabaseConnectionState.Valid, NewMinimum;
    hide DatabaseConnectionState.FieldAt;
    ghost var all := s.sent[channel];
    var n := applied;
    while n < |s.sent[channel]|
      invariant |c.log| == n <= |all|
      invariant s.Valid() && c.Valid() && c.log == all[..n] && s.sent[channel] == all
      invariant fresh(c.objects.fieldToVersionedObjects.Values - old(c.objects.fieldToVersionedObjects.Values))
      invariant fresh(c.objects.indexToVersionedIdSets.Values - old(c.objects.indexToVersionedIdSets.Values))
    {
      var t := s.sent[channel][n];
      assert all == c.log + [t] + all[n + 1..];
      NextMessageIsAllowed(s, c, channel, t, all[n + 1..]);
      c.IncomingTransaction(t);
      assert all[..n + 1] == all[..n] + [t];
      n := n + 1;
    }
    assert all[..n] == all;
    CaughtUp(s, c, channel);
  }

  lemma CaughtUp(s: Server, c: DatabaseConnectionState, channel: ChannelId)
    requires s.Valid() && c.Valid() && channel in s.sent && channel !in s.stale && c.log == s.sent[channel]
    ensures forall m, k: ObjectFieldId :: Relied(s, m) && m.channel == channel && k.fieldId == m.fieldId ==>
              c.FieldAt(k, s.curTransactionNum) == Lookup(Replay(s.log).fields, k)
    ensures forall m, i: IndexId, o :: Relied(s, m) && m.channel == channel && i.fieldId == m.fieldId ==>
              (Moment(s.curTransactionNum, o) in c.objects.MembersOf(i) <==> Membership(i, o) in Replay(s.log).members)
  {
    hide StateAt, Replay, Agrees, Server.Valid, DatabaseConnectionState.Valid, ReadAt;
    ClientIsNotAhead(s, c, channel);
    assert c.log + [] == c.log;
    forall m | Relied(s, m) && m.channel == channel
      ensures forall k: ObjectFieldId :: k.fieldId == m.fieldId ==>
                c.FieldAt(k, s.curTransactionNum) == Lookup(Replay(s.log).fields, k)
      ensures forall i: IndexId, o :: i.fieldId == m.fieldId ==>
                (Moment(s.curTransactionNum, o) in c.objects.MembersOf(i)
                 <==> Membership(i, o) in Replay(s.log).members)
    {
      MirrorHasBegun(s, m);
      ClientSnapshotIsServerState(s, c, m, [], s.curTransactionNum);
    }
  }

  lemma MirrorHasBegun(s: Server, m: Mirror)
    requires s.Valid() && m in s.mirrors
    ensures m.since <= s.curTransactionNum
  {
  }

  lemma ClientIsNotAhead(s: Server, c: DatabaseConnectionState, channel: ChannelId)
    requires s.Valid() && c.Valid() && channel in s.sent && channel !in s.stale && c.log == s.sent[channel]
    ensures c.minTransactionId <= s.curTransactionNum
    ensures StateAt(s.log, s.curTransactionNum) == Replay(s.log)
  {
    hide StateAt, Replay, Agrees, Deliverable, Server.StoreValid, MirrorsOn, Tracks, Serializable;
    hide DatabaseConnectionState.ValidUpTo;
    assert InStep(s.sent[channel], s.curTransactionNum, Replay(s.log));
    assert c.log != [] ==> c.log[|c.log| - 1] in c.log;
    StateAtEnd(s.log, s.curTransactionNum);
  }
}
