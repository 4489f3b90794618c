/** Whole runs of the server and a client: the classes take exactly the steps specified, and whatever the client can
    rely on it reads as committed. */
module Runs {
  import opened Common
  import opened Database
  import opened VersionedIdSets
  import opened AllVersionedObjects
  import opened Replica
  import opened Persistence
  import opened ServerStore
  import opened SubscriptionSnapshot
  import opened CommitProtocol
  import opened LargeSubscriptions
  import opened Replication
  import opened SystemSpecs

  ghost function ServerStateOf(s: Server, sub: LargeSubscription?): ServerState
    reads s, sub
  {
    ServerState(s.log, s.curTransactionNum, s.minAcceptableVersionNumber, s.fieldIdToChannel, s.idToChannel, s.sent,
                s.mirrors, if sub == null then None else Some(ServingOf(sub)))
  }

  ghost function ServingOf(sub: LargeSubscription): Serving
    reads sub
  {
    Serving(sub.channel, sub.fields, sub.indices, sub.target, sub.identities)
  }

  ghost function StateOf(s: Server, sub: LargeSubscription?, c: DatabaseConnectionState, applied: nat): SystemState
    reads s, sub, c
  {
    SystemState(ServerStateOf(s, sub), applied, c.versionRefcounts)
  }

  /** The subscription under way, if any, is one of this server's. */
  ghost predicate Serves(s: Server, sub: LargeSubscription?)
    reads s, s.store, sub, if sub == null then {} else {sub.server, sub.server.store}
  {
    sub != null ==> sub.server == s && sub.Valid()
  }

  /** The index changes agree with what is stored. */
  predicate AgreesWithStore(data: Data, sets: Sets, adds: map<IndexId, set<ObjectId>>,
                            removes: map<IndexId, set<ObjectId>>) {
    && (forall m :: m in Pairs(adds) ==> Identity(m.objId) !in Members(sets, IndexMembers(m.index)))
    && (forall m :: m in Pairs(removes) ==> Identity(m.objId) in Members(sets, IndexMembers(m.index)))
    && (forall m, n :: m in Pairs(adds) && n in Pairs(adds) && SameEntry(m, n) ==> m == n)
    && (forall m :: m in Pairs(adds) ==>
          var prior := Lookup(data, ReverseKey(m));
          prior.Some? ==> Membership(IndexId(m.index.fieldId, prior.value), m.objId) in Pairs(removes))
  }

  /** So whether a request can be handled can be seen from the store. */
  lemma AgreesIsConsistent(data: Data, sets: Sets, db: Database, adds: map<IndexId, set<ObjectId>>,
                           removes: map<IndexId, set<ObjectId>>)
    requires IndicesHeld(sets, db) && ReverseHeld(data, db)
    ensures AgreesWithStore(data, sets, adds, removes) <==> Consistent(db.members, adds, removes)
  {
    if AgreesWithStore(data, sets, adds, removes) {
      forall m, n | m in Pairs(adds) && n in db.members && SameEntry(m, n)
        ensures n in Pairs(removes)
      {
        assert ReverseKey(m) == ReverseKey(n);
      }
    }
    if Consistent(db.members, adds, removes) {
      forall m | m in Pairs(adds) && Lookup(data, ReverseKey(m)).Some?
        ensures Membership(IndexId(m.index.fieldId, Lookup(data, ReverseKey(m)).value), m.objId) in Pairs(removes)
      {
        var n := Membership(IndexId(m.index.fieldId, Lookup(data, ReverseKey(m)).value), m.objId);
        assert ReverseKey(n) == ReverseKey(m) && SameEntry(m, n);
      }
    }
  }

  /** At most one transaction was committed, and it was kept for the subscription being served. */
  twostate predicate OneMoreAtMost(s: Server)
    reads s
  {
    || (s.log == old(s.log) && s.pendingSubscriptionRecheck == old(s.pendingSubscriptionRecheck))
    || (|s.log| == |old(s.log)| + 1 && old(s.log) <= s.log
        && s.pendingSubscriptionRecheck == WithPending(old(s.pendingSubscriptionRecheck), s.log[|old(s.log)|]))
  }

  lemma PrerequisitesAreMet(s: Server, req: Request)
    requires s.Valid()
    ensures PrerequisitesHold(req, s.store.data) <==> PrerequisitesMet(req, Replay(s.log))
    ensures AgreesWithStore(s.store.data, s.store.sets, req.setAdds, req.setRemoves)
            <==> Consistent(Replay(s.log).members, req.setAdds, req.setRemoves)
  {
    hide Replay, Consistent, AgreesWithStore, Tracks, Serializable, ChannelsInOrder;
    assert FieldsHeld(s.store.data, Replay(s.log));
    AgreesIsConsistent(s.store.data, s.store.sets, Replay(s.log), req.setAdds, req.setRemoves);
  }

  lemma ConflictIsReal(s: Server, req: Request, conflict: Option<VersionKey>)
    requires s.Valid() && s.minAcceptableVersionNumber <= req.asOfVersion
    requires conflict.Some? ==>
               conflict.value in Checked(req) && req.asOfVersion < LastTid(s.versionNumbers, conflict.value)
    requires conflict.None? ==> forall key :: key in Checked(req) ==> LastTid(s.versionNumbers, key) <= req.asOfVersion
    ensures conflict.Some? <==> Conflicts(s.log, req)
  {
    hide Serializable, ChannelsInOrder, Server.StoreValid, Tracks, Conflicts;
    ConflictsDetected(s.versionNumbers, s.minAcceptableVersionNumber, s.log, req);
  }

  /** Whether a request contradicts the indices, though nothing else speaks against it, can be told beforehand. */
  method FindContradiction(s: Server, req: Request) returns (contradicts: bool)
    requires s.Valid()
    ensures contradicts <==> Contradicts(ServerStateOf(s, null), req)
    ensures contradicts <==> s.minAcceptableVersionNumber <= req.asOfVersion && !s.CanHandle(req)
  {
    hide Server.Valid, Replay, Consistent, Conflicts, PrerequisitesHold, PrerequisitesMet, AgreesWithStore;
    var conflict := s.FindConflict(req);
    var agrees := AgreesWithStore(s.store.data, s.store.sets, req.setAdds, req.setRemoves);
    var tooOld := req.asOfVersion < s.minAcceptableVersionNumber;
    PrerequisitesAreMet(s, req);
    if !tooOld {
      ConflictIsReal(s, req, conflict);
    }
    contradicts := !agrees && !tooOld && req.asOfVersion <= s.curTransactionNum && conflict.None?
                   && PrerequisitesHold(req, s.store.data);
  }

  method SubmitStep(s: Server, ghost sub: LargeSubscription?, ghost observed: ChannelId, req: Request, now: int)
    requires s.Valid() && !Contradicts(ServerStateOf(s, null), req)
    modifies s, s.store
    ensures s.Valid() && OneMoreAtMost(s) && s.stale == old(s.stale)
    ensures ServerTakes(old(ServerStateOf(s, sub)), Submit(req, now), ServerStateOf(s, sub), observed)
  {
    hide Server.Valid, Replay, Consistent, Conflicts, PrerequisitesHold, PrerequisitesMet, SentAfter, FieldsHeld;
    hide TransactionOf, Accepted;
    PrerequisitesAreMet(s, req);
    var r := s.CompleteTransaction(req, now);
  }

  /** One step of a client's request. A step that cannot be taken is passed over. */
  method RequestStep(s: Server, ghost sub: LargeSubscription?, ghost observed: ChannelId, step: SystemStep)
    requires s.Valid() && !step.Begin? && !step.SendBatch?
    requires step.Submit? ==> !Contradicts(ServerStateOf(s, null), step.req)
    modifies s, s.store
    ensures s.Valid() && OneMoreAtMost(s) && s.stale == old(s.stale)
    ensures ServerTakes(old(ServerStateOf(s, sub)), step, ServerStateOf(s, sub), observed)
  {
    hide Server.Valid, Replay, Suffices, Mirrors, NewMirrors, ConnectionRequest, SnapshotOf, WithSubscriber, SentAfter;
    hide TransactionOf, Contradicts, Refused, IsDataFor, ListedIn;
    match step {
      case Submit(req, now) =>
        SubmitStep(s, sub, observed, req, now);
      case CollectVersions(threshold) =>
        s.GarbageCollect(threshold);
      case Connect(newChannel, connection, existence, heartbeats, off, now) =>
        var entry := ReverseIndex(ObjectFieldId(connection, existence.fieldId));
        NoEntryStored(s, connection, existence.fieldId);
        if newChannel !in s.sent && Lookup(s.store.data, entry).None? {
          s.AddConnection(newChannel, connection, existence, heartbeats, off, now);
        }
      case Subscribe(subscriber, fields, indices, existence) =>
        if subscriber in s.sent {
          SnapshotIsTypeData(s, fields, indices, existence);
          s.HandleSubscriptionInForeground(subscriber, fields, indices, existence);
        }
      case Follow(subscriber, objects) =>
        if subscriber in s.sent {
          s.FollowObjects(subscriber, objects);
        }
      case _ =>
    }
  }

  lemma SnapshotIsTypeData(s: Server, fields: set<FieldId>, indices: set<FieldId>, existence: IndexId)
    requires s.Valid()
    ensures var data := SnapshotOf(s.store.data, Existing(s.store.sets, existence), fields, indices,
                                   s.curTransactionNum);
            IsDataFor(data, Replay(s.log), ListedIn(Replay(s.log), existence), fields, indices, s.curTransactionNum)
  {
    hide Replay, Tracks, Serializable, ChannelsInOrder, SnapshotOf, IsDataFor;
    HeldData(s);
    assert IndicesHeld(s.store.sets, Replay(s.log));
    assert forall o ::
             o in Existing(s.store.sets, existence) <==> Membership(existence, o) in Replay(s.log).members;
    assert Existing(s.store.sets, existence) == ListedIn(Replay(s.log), existence);
    SnapshotIsData(s.store.data, Replay(s.log), Existing(s.store.sets, existence), fields, indices,
                   s.curTransactionNum);
  }

  lemma NoEntryStored(s: Server, o: ObjectId, f: FieldId)
    requires s.Valid()
    ensures Lookup(s.store.data, ReverseIndex(ObjectFieldId(o, f))).None? <==> NoEntry(Replay(s.log), o, f)
  {
    hide Tracks, Serializable, ChannelsInOrder, Replay;
    var data, members, key := s.store.data, Replay(s.log).members, ReverseIndex(ObjectFieldId(o, f));
    assert ReverseHeld(data, Replay(s.log));
    if Lookup(data, key).Some? {
      var m := Membership(IndexId(f, Lookup(data, key).value), o);
      assert ReverseKey(m) == key && m in members;
    } else {
      forall m | m in members
        ensures !(m.objId == o && m.index.fieldId == f)
      {
        assert Lookup(data, ReverseKey(m)).Some?;
      }
    }
  }

  /** What was sent is still what is stored. */
  predicate StillStored(data: Data, values: Buildup, indexValues: Buildup) {
    && (forall k :: k in values ==> values[k] == Lookup(data, FieldValue(k)))
    && (forall k :: k in indexValues ==> indexValues[k] == Lookup(data, ReverseIndex(k)))
  }

  lemma StoredIsSnapshot(sub: LargeSubscription)
    requires sub.Valid() && StillStored(sub.server.store.data, sub.values, sub.indexValues)
    ensures var s := sub.server;
            var data := DataOf(sub.values, sub.indexValues, s.curTransactionNum);
            && data == SnapshotOf(s.store.data, sub.lastSent.Keys, sub.fields, sub.indices, s.curTransactionNum)
            && IsDataFor(data, Replay(s.log), sub.lastSent.Keys, sub.fields, sub.indices, s.curTransactionNum)
  {
    hide Server.Valid, SnapshotOf, IndexValuesToSetAdds, NothingMissed, AllListedReached, SentAt, Replay, IsDataFor;
    IsSnapshot(sub.server.store.data, sub.lastSent.Keys, sub.fields, sub.indices, sub.values, sub.indexValues,
               sub.server.curTransactionNum);
    HeldData(sub.server);
    SnapshotIsData(sub.server.store.data, Replay(sub.server.log), sub.lastSent.Keys, sub.fields, sub.indices,
                   sub.server.curTransactionNum);
  }

  /** Complete a subscription, unless this would send the `observed` channel outdated data. */
  method CompleteUnlessOutdated(sub: LargeSubscription, observed: ChannelId) returns (completed: bool)
    requires sub.Valid() && sub.identitiesLeftToSend == {} && sub.server.pendingSubscriptionRecheck == Some([])
    modifies sub.server
    ensures sub.server.Valid() && (completed || sub.Valid())
    ensures completed
            <==> sub.channel != observed || StillStored(sub.server.store.data, sub.values, sub.indexValues)
    ensures !completed ==> ServerStateOf(sub.server, sub) == old(ServerStateOf(sub.server, sub))
    ensures completed ==>
              exists data, sent ::
                Completes(old(ServerStateOf(sub.server, sub)), ServerStateOf(sub.server, null), data, sent, observed)
    ensures observed in sub.server.stale ==> observed in old(sub.server.stale)
  {
    hide Server.Valid, LargeSubscription.Valid, Replay, LargeSubscription.AllUpToDate, LargeSubscription.UpToDate;
    hide SnapshotOf, Suffices, IndexValuesToSetAdds, StillStored, Mirrors, WithSubscriber, NewMirrors;
    hide IsBatchedData, IsDataFor;
    ServerIsValid(sub);
    var current := StillStored(sub.server.store.data, sub.values, sub.indexValues);
    if current {
      StoredIsSnapshot(sub);
    }
    completed := current || sub.channel != observed;
    if completed {
      sub.CompletionData();
      ghost var before := ServerStateOf(sub.server, sub);
      sub.Complete();
      ghost var data := DataOf(sub.values, sub.indexValues, sub.server.curTransactionNum);
      assert Completes(before, ServerStateOf(sub.server, null), data, sub.lastSent.Keys, observed);
    }
  }

  /** Send a batch, and complete the subscription if nothing is left. */
  method SendOrComplete(sub: LargeSubscription, observed: ChannelId, batchSize: nat) returns (completed: bool)
    requires sub.Valid() && 0 < batchSize
    modifies sub.server, sub
    ensures sub.server.Valid() && (completed || sub.Valid())
    ensures ServerTakes(old(ServerStateOf(sub.server, sub)), SendBatch(batchSize),
                        ServerStateOf(sub.server, if completed then null else sub), observed)
    ensures completed
            <==> && sub.identitiesLeftToSend == {}
                 && (sub.channel != observed || StillStored(sub.server.store.data, sub.values, sub.indexValues))
    ensures observed in sub.server.stale ==> observed in old(sub.server.stale)
  {
    hide Server.Valid, LargeSubscription.Valid, Replay, RecheckedIn, FieldsRead, IndexValuesRead, Completes;
    hide ServerTakes, Refused, Contradicts;
    ghost var before := ServerStateOf(sub.server, sub);
    var done, sentNow := sub.SendPartialSubscription(batchSize);
    ServerIsValid(sub);
    completed := false;
    assert ServerStateOf(sub.server, sub) == before;
    if done {
      completed := CompleteUnlessOutdated(sub, observed);
    }
    BatchIsTaken(before, batchSize, ServerStateOf(sub.server, if completed then null else sub), observed);
  }

  lemma BatchIsTaken(a: ServerState, batchSize: nat, b: ServerState, observed: ChannelId)
    requires b == a || exists data, sent :: Completes(a, b, data, sent, observed)
    ensures ServerTakes(a, SendBatch(batchSize), b, observed)
  {
  }

  method BeginServing(s: Server, ghost observed: ChannelId, step: SystemStep) returns (next: LargeSubscription)
    requires s.Valid() && step.Begin? && step.subscriber in s.sent
    modifies s`pendingSubscriptionRecheck
    ensures s.Valid() && Serves(s, next) && fresh(next)
    ensures ServerTakes(old(ServerStateOf(s, null)), step, ServerStateOf(s, next), observed)
  {
    hide Server.Valid, LargeSubscription.Valid, Replay;
    next := new LargeSubscription(s, step.subscriber, step.fields, step.indices, step.target);
    ServerIsValid(next);
    ListsAll(next.identities, Replay(s.log), step.target.index);
  }

  lemma ListsAll(objects: set<ObjectId>, db: Database, index: IndexId)
    requires forall o :: o in objects <==> Membership(index, o) in db.members
    ensures objects == ListedIn(db, index)
  {
    assert forall o :: o in objects <==> o in ListedIn(db, index);
  }

  /** One step of the thread serving a large subscription. */
  method BatchStep(s: Server, sub: LargeSubscription?, observed: ChannelId, step: SystemStep)
    returns (next: LargeSubscription?)
    requires s.Valid() && Serves(s, sub) && (step.Begin? || step.SendBatch?)
    modifies s, sub
    ensures s.Valid() && Serves(s, next) && (next == null || next == sub || fresh(next))
    ensures ServerTakes(old(ServerStateOf(s, sub)), step, ServerStateOf(s, next), observed)
    ensures observed in s.stale ==> observed in old(s.stale)
  {
    hide Server.Valid, LargeSubscription.Valid, Replay, Completes;
    next := sub;
    if step.SendBatch? && sub != null && 0 < step.batchSize {
      var completed := SendOrComplete(sub, observed, step.batchSize);
      next := if completed then null else sub;
    }
    if step.Begin? && sub == null && step.subscriber in s.sent {
      next := BeginServing(s, observed, step);
    }
  }

  /** One step on the server, but for a request that contradicts the indices. */
  method ServerStep(s: Server, sub: LargeSubscription?, observed: ChannelId, step: SystemStep)
    returns (next: LargeSubscription?)
    requires s.Valid() && Serves(s, sub) && (step.Submit? ==> !Contradicts(ServerStateOf(s, null), step.req))
    modifies s, s.store, sub
    ensures s.Valid() && Serves(s, next) && (next == null || next == sub || fresh(next))
    ensures ServerTakes(old(ServerStateOf(s, sub)), step, ServerStateOf(s, next), observed)
    ensures observed in s.stale ==> observed in old(s.stale)
  {
    hide Server.Valid, LargeSubscription.ProgressValid, Replay, ServerTakes, Contradicts;
    if step.Begin? || step.SendBatch? {
      next := BatchStep(s, sub, observed, step);
    } else {
      ghost var before := ServerStateOf(s, sub);
      RequestStep(s, sub, observed, step);
      next := sub;
      StepGrows(before, step, ServerStateOf(s, sub), observed);
      if sub != null && |before.log| < |s.log| {
        assert s.log == before.log + [s.log[|before.log|]];
        sub.LogGrew(before.log, s.log[|before.log|]);
      }
    }
  }

  /** The client has applied the first so many messages of its channel. */
  ghost predicate InSync(s: Server, c: DatabaseConnectionState, channel: ChannelId, applied: nat)
    reads s, s.store, c, c.objects, c.objects.fieldToVersionedObjects.Values, c.objects.indexToVersionedIdSets.Values
  {
    && s.Valid() && c.Valid() && channel in s.sent && channel !in s.stale
    && applied <= |s.sent[channel]| && c.log == s.sent[channel][..applied]
  }

  lemma InSyncIsNumbered(s: Server, sub: LargeSubscription?, c: DatabaseConnectionState, channel: ChannelId,
                         applied: nat)
    requires InSync(s, c, channel, applied)
    ensures Numbered(StateOf(s, sub, c, applied), channel)
  {
    hide Replay, Server.StoreValid, Tracks, Serializable, MirrorsOn, Deliverable, DatabaseConnectionState.Valid;
    assert InStep(s.sent[channel], s.curTransactionNum, Replay(s.log));
  }

  /** Some view is open at `v`, which the client therefore keeps. */
  ghost predicate Keeps(c: DatabaseConnectionState, v: TransactionId)
    reads c
  {
    v in c.versionRefcounts && c.minTransactionId <= v
  }

  /** Whatever was kept and is still held is still kept, and nothing that was collected comes back. */
  twostate predicate KeepsHeld(c: DatabaseConnectionState)
    reads c
  {
    old(c.minTransactionId) <= c.minTransactionId
    && forall v :: old(Keeps(c, v)) && v in c.versionRefcounts ==> Keeps(c, v)
  }

  /** The client applies the next message, if there is one. */
  method Deliver(s: Server, c: DatabaseConnectionState, channel: ChannelId, applied: nat)
    returns (n: nat)
    requires InSync(s, c, channel, applied)
    modifies c, c.objects, c.objects.fieldToVersionedObjects.Values, c.objects.indexToVersionedIdSets.Values
    ensures InSync(s, c, channel, n) && KeepsHeld(c)
    ensures n == if applied < |s.sent[channel]| then applied + 1 else applied
    ensures c.versionRefcounts == old(c.versionRefcounts) && old(c.minTransactionId) <= c.minTransactionId
    ensures fresh(c.objects.fieldToVersionedObjects.Values - old(c.objects.fieldToVersionedObjects.Values))
    ensures fresh(c.objects.indexToVersionedIdSets.Values - old(c.objects.indexToVersionedIdSets.Values))
  {
    hide StateAt, Replay, Agrees, Server.Valid, DatabaseConnectionState.Valid, NewMinimum;
    hide VersionedObjects.Awaited, HiddenSince;
    n := applied;
    if applied < |s.sent[channel]| {
      var t := s.sent[channel][applied];
      assert s.sent[channel] == c.log + [t] + s.sent[channel][applied + 1..];
      NextMessageIsAllowed(s, c, channel, t, s.sent[channel][applied + 1..]);
      c.IncomingTransaction(t);
      assert s.sent[channel][..applied + 1] == s.sent[channel][..applied] + [t];
      n := applied + 1;
    }
  }

  /** One step on the client. */
  method ClientStep(s: Server, ghost sub: LargeSubscription?, c: DatabaseConnectionState, channel: ChannelId,
                    applied: nat, step: SystemStep)
    returns (n: nat)
    requires InSync(s, c, channel, applied) && (step.DeliverNext? || step.ViewOpens? || step.ViewCloses?)
    modifies c, c.objects, c.objects.fieldToVersionedObjects.Values, c.objects.indexToVersionedIdSets.Values
    ensures InSync(s, c, channel, n) && applied <= n && KeepsHeld(c)
    ensures ClientTakes(old(StateOf(s, sub, c, applied)), step, StateOf(s, sub, c, n), channel)
    ensures old(c.minTransactionId) <= c.minTransactionId
    ensures fresh(c.objects.fieldToVersionedObjects.Values - old(c.objects.fieldToVersionedObjects.Values))
    ensures fresh(c.objects.indexToVersionedIdSets.Values - old(c.objects.indexToVersionedIdSets.Values))
  {
    hide StateAt, Replay, Agrees, Server.Valid, DatabaseConnectionState.Valid, Acquired, Released, NewMinimum;
    hide VersionedObjects.Awaited, HiddenSince;
    n := applied;
    match step {
      case DeliverNext =>
        n := Deliver(s, c, channel, applied);
      case ViewOpens(id) =>
        c.IncrefVersion(id);
      case ViewCloses(id) =>
        c.DecrefVersion(id);
      case _ =>
    }
  }

  /** One step, on the server or on the client. */
  method TakeStep(s: Server, sub: LargeSubscription?, c: DatabaseConnectionState, channel: ChannelId, applied: nat,
                  step: SystemStep)
    returns (n: nat, next: LargeSubscription?)
    requires InSync(s, c, channel, applied) && Serves(s, sub)
    requires step.Submit? ==> !Contradicts(ServerStateOf(s, null), step.req)
    modifies s, s.store, sub
    modifies c, c.objects, c.objects.fieldToVersionedObjects.Values, c.objects.indexToVersionedIdSets.Values
    ensures InSync(s, c, channel, n) && Serves(s, next) && (next == null || next == sub || fresh(next))
    ensures Takes(old(StateOf(s, sub, c, applied)), step, StateOf(s, next, c, n), channel)
    ensures KeepsHeld(c)
    ensures fresh(c.objects.fieldToVersionedObjects.Values - old(c.objects.fieldToVersionedObjects.Values))
    ensures fresh(c.objects.indexToVersionedIdSets.Values - old(c.objects.indexToVersionedIdSets.Values))
  {
    hide Server.Valid, DatabaseConnectionState.Valid, LargeSubscription.Valid, ServerTakes, ClientTakes, Takes;
    hide Contradicts;
    ghost var before := StateOf(s, sub, c, applied);
    n, next := applied, sub;
    if step.DeliverNext? || step.ViewOpens? || step.ViewCloses? {
      n := ClientStep(s, sub, c, channel, applied, step);
      ClientStepTaken(before, step, StateOf(s, next, c, n), channel);
    } else {
      next := ServerStep(s, sub, channel, step);
      StepGrows(before.server, step, ServerStateOf(s, next), channel);
      assert s.sent[channel][..applied] == before.server.sent[channel][..applied];
      ServerStepTaken(before, step, StateOf(s, next, c, n), channel);
    }
  }

  lemma ClientStepTaken(a: SystemState, step: SystemStep, b: SystemState, channel: ChannelId)
    requires step.DeliverNext? || step.ViewOpens? || step.ViewCloses?
    requires channel in a.server.sent && ClientTakes(a, step, b, channel)
    ensures Takes(a, step, b, channel)
  {
  }

  lemma ServerStepTaken(a: SystemState, step: SystemStep, b: SystemState, channel: ChannelId)
    requires !step.DeliverNext? && !step.ViewOpens? && !step.ViewCloses?
    requires channel in a.server.sent && ServerTakes(a.server, step, b.server, channel) && b == a.(server := b.server)
    ensures Takes(a, step, b, channel)
  {
    hide ServerTakes;
  }

  /** The client reads, at `v`, the field or index that the mirror is about as it was committed. */
  ghost predicate ReadsAsCommitted(log: Log, c: DatabaseConnectionState, m: Mirror, v: TransactionId)
    reads c, c.objects, c.objects.fieldToVersionedObjects.Values, c.objects.indexToVersionedIdSets.Values
  {
    && (forall k: ObjectFieldId :: k.fieldId == m.fieldId ==> c.FieldAt(k, v) == Lookup(StateAt(log, v).fields, k))
    && (forall i: IndexId, o :: i.fieldId == m.fieldId ==>
          (Moment(v, o) in c.objects.MembersOf(i) <==> Membership(i, o) in StateAt(log, v).members))
  }

  /** The steps up to the first request that contradicts the indices, if there is one. */
  method RunUntilContradiction(s: Server, sub: LargeSubscription?, c: DatabaseConnectionState, channel: ChannelId,
                               applied: nat, steps: seq<SystemStep>)
    returns (n: nat, next: LargeSubscription?, taken: nat, ghost trace: seq<SystemState>)
    requires InSync(s, c, channel, applied) && Serves(s, sub)
    modifies s, s.store, sub
    modifies c, c.objects, c.objects.fieldToVersionedObjects.Values, c.objects.indexToVersionedIdSets.Values
    ensures InSync(s, c, channel, n) && Serves(s, next) && (next == null || next == sub || fresh(next))
    ensures taken <= |steps| && IsRun(trace, steps[..taken], channel)
    ensures trace[0] == old(StateOf(s, sub, c, applied)) && trace[taken] == StateOf(s, next, c, n)
    ensures taken < |steps| ==> steps[taken].Submit? && Contradicts(trace[taken].server, steps[taken].req)
    ensures forall v :: old(Keeps(c, v)) && HeldThroughout(trace, v) ==> Keeps(c, v)
    ensures fresh(c.objects.fieldToVersionedObjects.Values - old(c.objects.fieldToVersionedObjects.Values))
    ensures fresh(c.objects.indexToVersionedIdSets.Values - old(c.objects.indexToVersionedIdSets.Values))
  {
    hide Server.Valid, DatabaseConnectionState.Valid, LargeSubscription.Valid, ServerTakes, ClientTakes, Takes;
    hide Contradicts;
    hide Numbered, Server.CanHandle;
    n, next, taken, trace := applied, sub, 0, [StateOf(s, sub, c, applied)];
    InSyncIsNumbered(s, sub, c, channel, applied);
    while taken < |steps|
      invariant taken <= |steps| && InSync(s, c, channel, n)
      invariant Serves(s, next) && (next == null || next == sub || fresh(next))
      invariant IsRun(trace, steps[..taken], channel)
      invariant trace[0] == old(StateOf(s, sub, c, applied)) && trace[taken] == StateOf(s, next, c, n)
      invariant forall v :: old(Keeps(c, v)) && HeldThroughout(trace, v) ==> Keeps(c, v)
      invariant fresh(c.objects.fieldToVersionedObjects.Values - old(c.objects.fieldToVersionedObjects.Values))
      invariant fresh(c.objects.indexToVersionedIdSets.Values - old(c.objects.indexToVersionedIdSets.Values))
    {
      if steps[taken].Submit? {
        var contradicts := FindContradiction(s, steps[taken].req);
        if contradicts {
          SameContradiction(ServerStateOf(s, null), trace[taken].server, steps[taken].req);
          return;
        }
      }
      n, next := TakeStep(s, next, c, channel, n, steps[taken]);
      InSyncIsNumbered(s, next, c, channel, n);
      RunGoesOn(trace, steps, taken, StateOf(s, next, c, n), channel);
      HeldLonger(trace, StateOf(s, next, c, n));
      trace := trace + [StateOf(s, next, c, n)];
      taken := taken + 1;
    }
  }

  lemma SameContradiction(a: ServerState, b: ServerState, req: Request)
    requires Contradicts(a, req) && b == a.(serving := b.serving)
    ensures Contradicts(b, req)
  {
  }

  /** The system theorem. However the steps are mixed, each does exactly what is specified, and so nothing committed,
      sent or promised is taken back; what was committed never changes; a version is kept as long as at each point
      more views were opened there than closed; and whatever the client can rely on it reads, at every snapshot it
      keeps, as the server has committed it. All that ends a run early is a request that contradicts the indices,
      for which the server is not made: it is broken then. */
  method RunSystem(s: Server, sub: LargeSubscription?, c: DatabaseConnectionState, channel: ChannelId, applied: nat,
                   steps: seq<SystemStep>)
    returns (n: nat, next: LargeSubscription?, taken: nat, ghost trace: seq<SystemState>)
    requires InSync(s, c, channel, applied) && Serves(s, sub)
    modifies s, s.store, sub
    modifies c, c.objects, c.objects.fieldToVersionedObjects.Values, c.objects.indexToVersionedIdSets.Values
    ensures taken <= |steps| && IsRun(trace, steps[..taken], channel)
            && trace[0] == old(StateOf(s, sub, c, applied))
    ensures taken == |steps| ==>
              && InSync(s, c, channel, n) && trace[taken] == StateOf(s, next, c, n)
              && Serves(s, next) && (next == null || next == sub || fresh(next))
    ensures taken < |steps| ==> steps[taken].Submit? && Contradicts(trace[taken].server, steps[taken].req)
    ensures taken < |steps| && Pairs(steps[taken].req.setAdds) !! Pairs(steps[taken].req.setRemoves) ==> !s.Valid()
    ensures Grew(trace[0].server, trace[taken].server)
    ensures c.Valid() && n == trace[taken].applied && c.log == trace[taken].server.sent[channel][..n]
    ensures forall v :: CountAt(trace[taken].refs, v) == CountAt(trace[0].refs, v) + OpenAt(steps[..taken], v)
    ensures forall v ::
              && old(Keeps(c, v))
              && (forall i :: 0 <= i <= taken ==> 0 < CountAt(trace[0].refs, v) + OpenAt(steps[..i], v)) ==>
              Keeps(c, v)
    ensures forall v :: v <= old(s.curTransactionNum) ==>
              StateAt(trace[taken].server.log, v) == old(StateAt(s.log, v))
    ensures forall m, v :: c.minTransactionId <= v && Settled(trace[taken], channel, m, v) ==>
              ReadsAsCommitted(trace[taken].server.log, c, m, v)
  {
    hide Server.Valid, DatabaseConnectionState.Valid, LargeSubscription.Valid, StateAt, ReadsAsCommitted, Settled;
    hide Takes, Contradicts, Numbered, Server.CanHandle, FieldsHeld, Apply, Accepted;
    n, next, taken, trace := RunUntilContradiction(s, sub, c, channel, applied, steps);
    RunGrows(trace, steps[..taken], channel, 0, taken);
    RefsCounted(trace, steps[..taken], channel);
    forall v
      ensures v <= old(s.curTransactionNum) ==> StateAt(s.log, v) == old(StateAt(s.log, v))
    {
      CommittedStays(old(s.log), s.log, v, old(s.curTransactionNum));
    }
    HeldWhileOpen(trace, steps, taken, channel);
    SettledReads(s, next, c, channel, n);
    if taken < |steps| {
      SameContradiction(trace[taken].server, ServerStateOf(s, null), steps[taken].req);
      SubmitContradiction(s, steps[taken].req, steps[taken].now);
    }
  }

  /** A request for which the server is not made. */
  method SubmitContradiction(s: Server, req: Request, now: int)
    requires s.Valid() && Contradicts(ServerStateOf(s, null), req)
    modifies s, s.store
    ensures Pairs(req.setAdds) !! Pairs(req.setRemoves) ==> !s.Valid()
  {
    hide Server.Valid, Contradicts, Server.CanHandle, FieldsHeld, Apply, Accepted;
    var contradicts := FindContradiction(s, req);
    var r := s.CompleteTransaction(req, now);
  }

  lemma SettledReads(s: Server, sub: LargeSubscription?, c: DatabaseConnectionState, channel: ChannelId, applied: nat)
    requires InSync(s, c, channel, applied) && Numbered(StateOf(s, sub, c, applied), channel)
    ensures forall m, v :: c.minTransactionId <= v && Settled(StateOf(s, sub, c, applied), channel, m, v) ==>
              ReadsAsCommitted(s.log, c, m, v)
  {
    hide Server.Valid, DatabaseConnectionState.Valid, StateAt, DatabaseConnectionState.FieldAt, Carried;
    forall m, v | c.minTransactionId <= v && Settled(StateOf(s, sub, c, applied), channel, m, v)
      ensures ReadsAsCommitted(s.log, c, m, v)
    {
      assert s.sent[channel] == c.log + s.sent[channel][applied..];
      ClientSnapshotIsServerState(s, c, m, s.sent[channel][applied..], v);
    }
  }

  /** A client reads an object its channel mirrors as committed, at every snapshot it keeps and for which nothing is
      under way. */
  lemma ObjectReads(sent: Log, log: Log, c: DatabaseConnectionState, applied: nat, o: ObjectId, since: TransactionId,
                    v: TransactionId)
    requires c.Valid() && applied <= |sent| && c.log == sent[..applied] && MirrorsObject(sent, log, o, since)
    requires since <= v && c.minTransactionId <= v && forall t :: t in sent[applied..] ==> v < t.tid
    ensures forall k: ObjectFieldId :: k.objId == o ==> c.FieldAt(k, v) == Lookup(StateAt(log, v).fields, k)
    ensures forall i: IndexId ::
              Moment(v, o) in c.objects.MembersOf(i) <==> Membership(i, o) in StateAt(log, v).members
  {
    hide StateAt, DatabaseConnectionState.Valid, DatabaseConnectionState.FieldAt;
    assert sent == c.log + sent[applied..];
    LaterTransactionsInvisible(c.log, sent[applied..], v);
    assert SameObject(StateAt(sent, v), StateAt(log, v), o);
    SnapshotIsLogged(c, v);
  }

  lemma CommittedStays(before: Log, log: Log, v: TransactionId, current: TransactionId)
    requires before <= log && forall n :: |before| <= n < |log| ==> current < log[n].tid
    ensures v <= current ==> StateAt(log, v) == StateAt(before, v)
  {
    if v <= current {
      LaterTransactionsInvisible(before, log[|before|..], v);
      assert before + log[|before|..] == log;
    }
  }

  /** Runs can start: a new server, a channel opened on it, and a new client are in step. */
  method StartSystem(channel: ChannelId) returns (s: Server, c: DatabaseConnectionState)
    ensures fresh(s) && fresh(s.store) && fresh(c) && fresh(c.objects)
    ensures c.objects.fieldToVersionedObjects == map[] && c.objects.indexToVersionedIdSets == map[]
    ensures InSync(s, c, channel, 0) && s.log == [] && s.curTransactionNum == 0 && s.mirrors == {}
    ensures s.minAcceptableVersionNumber == NO_TRANSACTION && c.versionRefcounts == map[]
            && s.sent == map[channel := []]
    ensures s.fieldIdToChannel == map[] && s.idToChannel == map[]
  {
    hide Server.Valid, DatabaseConnectionState.Valid;
    s := new Server();
    s.OpenChannel(channel);
    c := new DatabaseConnectionState();
  }

  /** And so whatever is done from there on is a run. */
  method RunFromStart(channel: ChannelId, steps: seq<SystemStep>)
    returns (s: Server, c: DatabaseConnectionState, n: nat, taken: nat, ghost trace: seq<SystemState>)
    ensures taken <= |steps| && IsRun(trace, steps[..taken], channel)
    ensures trace[0]
            == SystemState(ServerState([], 0, NO_TRANSACTION, map[], map[], map[channel := []], {}, None), 0, map[])
    ensures c.Valid() && forall m, v :: c.minTransactionId <= v && Settled(trace[taken], channel, m, v) ==>
              ReadsAsCommitted(trace[taken].server.log, c, m, v)
  {
    hide InSync, ReadsAsCommitted, Settled, Takes, Contradicts, Numbered, Grew, Server.Valid;
    s, c := StartSystem(channel);
    var next;
    n, next, taken, trace := RunSystem(s, null, c, channel, 0, steps);
  }
}
