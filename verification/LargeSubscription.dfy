/** The background thread of object_database/server.py that serves a subscription too large to be sent at once. It
    gives up the server's lock between batches, so transactions are committed while it is at work. */
module LargeSubscriptions {
  import opened Common
  import opened OrderedSets
  import opened Database
  import opened Persistence
  import opened ServerStore
  import opened SubscriptionSnapshot
  import opened CommitProtocol

  /** What is subscribed to: all objects of a type, listed under `index`, or one value of an index. */
  datatype Target = WholeType(index: IndexId) | OneIndexValue(index: IndexId) {
    predicate Joins(i: IndexId) {
      if WholeType? then i.fieldId == index.fieldId else i == index
    }
  }

  /** What the client is building up: a value, possibly none, for each key sent. */
  type Buildup = map<ObjectFieldId, Option<Bytes>>

  /** The pseudo-transaction the client applies when the subscription is complete. */
  function DataOf(values: Buildup, indexValues: Buildup, tid: TransactionId): Transaction {
    Transaction(tid, values, IndexValuesToSetAdds(indexValues), map[])
  }

  predicate WrittenBy(t: Transaction, o: ObjectId) {
    exists k :: k in t.writes && k.objId == o
  }

  predicate JoinedBy(target: Target, t: Transaction, o: ObjectId) {
    exists i :: i in t.setAdds && target.Joins(i) && o in t.setAdds[i]
  }

  ghost predicate WrittenIn(log: Log, o: ObjectId) {
    exists t :: t in log && WrittenBy(t, o)
  }

  /** An index change comes with a write to the object, as it does in every client transaction. */
  ghost predicate WritesWhatItIndexes(t: Transaction) {
    forall m :: m in Pairs(t.setAdds) + Pairs(t.setRemoves) ==> WrittenBy(t, m.objId)
  }

  /** The objects a committed transaction puts back on the list of objects to send. */
  function Rechecked(identities: set<ObjectId>, target: Target, t: Transaction): (s: set<ObjectId>)
    ensures forall o :: o in s <==> (o in identities && WrittenBy(t, o)) || JoinedBy(target, t, o)
  {
    (set k | k in t.writes && k.objId in identities :: k.objId)
    + (set i, o | i in t.setAdds && target.Joins(i) && o in t.setAdds[i] :: o)
  }

  function RecheckedIn(identities: set<ObjectId>, target: Target, ts: seq<Transaction>): (s: set<ObjectId>)
    ensures forall o :: o in s <==> exists t :: t in ts && o in Rechecked(identities, target, t)
  {
    set t, o | t in ts && o in Rechecked(identities, target, t) :: o
  }

  lemma NothingRechecked(identities: set<ObjectId>, target: Target)
    ensures RecheckedIn(identities, target, []) == {}
  {
  }

  lemma RecheckedOneMore(identities: set<ObjectId>, target: Target, ts: seq<Transaction>, n: nat)
    requires n < |ts|
    ensures RecheckedIn(identities, target, ts[..n + 1])
            == RecheckedIn(identities, target, ts[..n]) + Rechecked(identities, target, ts[n])
  {
    hide Rechecked;
    assert forall t :: t in ts[..n + 1] <==> t in ts[..n] || t == ts[n];
  }

  /** The data sent for an object is what was stored after `n` transactions. */
  ghost predicate SentAt(log: Log, n: nat, o: ObjectId, fields: set<FieldId>, indices: set<FieldId>, values: Buildup,
                         indexValues: Buildup)
    requires n <= |log|
  {
    && (forall f :: f in fields ==>
          var k := ObjectFieldId(o, f);
          k in values && values[k] == Lookup(Replay(log[..n]).fields, k))
    && (forall f :: f in indices ==>
          var k := ObjectFieldId(o, f);
          k in indexValues && EntriesAre(Replay(log[..n]).members, f, indexValues[k], o))
  }

  /** All data sent is as of some transaction no later than `seen`. */
  ghost predicate AllSent(log: Log, seen: nat, lastSent: map<ObjectId, nat>, fields: set<FieldId>,
                          indices: set<FieldId>, values: Buildup, indexValues: Buildup)
  {
    && seen <= |log|
    && values.Keys == KeysOf(lastSent.Keys, fields) && indexValues.Keys == KeysOf(lastSent.Keys, indices)
    && (forall o :: o in lastSent ==> lastSent[o] <= seen)
    && (forall o :: o in lastSent ==> SentAt(log, lastSent[o], o, fields, indices, values, indexValues))
  }

  /** Every object there at the start is still to be sent or was sent, and what is off the list was not due again
      since it was sent. */
  ghost predicate NothingMissed(log: Log, seen: nat, identities: set<ObjectId>, target: Target, left: set<ObjectId>,
                                lastSent: map<ObjectId, nat>)
    requires seen <= |log| && forall o :: o in lastSent ==> lastSent[o] <= seen
  {
    && (forall o :: o in identities && o !in left ==> o in lastSent)
    && (forall o :: o in lastSent && o !in left ==> NotDue(log[lastSent[o]..seen], identities, target, o))
  }

  ghost predicate NotDue(ts: Log, identities: set<ObjectId>, target: Target, o: ObjectId) {
    forall t :: t in ts ==> o !in Rechecked(identities, target, t)
  }

  /** Every object listed is still to be sent or was sent at least once. */
  ghost predicate AllListedReached(log: Log, seen: nat, target: Target, left: set<ObjectId>,
                                   lastSent: map<ObjectId, nat>)
    requires seen <= |log|
  {
    forall m :: m in Replay(log[..seen]).members && m.index == target.index ==> m.objId in left || m.objId in lastSent
  }

  lemma AllSentGrows(log: Log, t: Transaction, seen: nat, lastSent: map<ObjectId, nat>, fields: set<FieldId>,
                     indices: set<FieldId>, values: Buildup, indexValues: Buildup)
    requires AllSent(log, seen, lastSent, fields, indices, values, indexValues)
    ensures AllSent(log + [t], seen, lastSent, fields, indices, values, indexValues)
  {
    hide Replay;
    forall o | o in lastSent
      ensures SentAt(log + [t], lastSent[o], o, fields, indices, values, indexValues)
    {
      assert (log + [t])[..lastSent[o]] == log[..lastSent[o]];
    }
  }

  lemma OthersGrow(log: Log, t: Transaction, seen: nat, identities: set<ObjectId>, target: Target, left: set<ObjectId>,
                   lastSent: map<ObjectId, nat>)
    requires seen <= |log| && forall o :: o in lastSent ==> lastSent[o] <= seen
    requires NothingMissed(log, seen, identities, target, left, lastSent)
    requires AllListedReached(log, seen, target, left, lastSent)
    ensures NothingMissed(log + [t], seen, identities, target, left, lastSent)
    ensures AllListedReached(log + [t], seen, target, left, lastSent)
  {
    hide NotDue, Replay;
    assert (log + [t])[..seen] == log[..seen];
    forall o | o in lastSent && o !in left
      ensures NotDue((log + [t])[lastSent[o]..seen], identities, target, o)
    {
      assert (log + [t])[lastSent[o]..seen] == log[lastSent[o]..seen];
    }
  }

  /** Rechecking one more transaction. */
  lemma RecheckKeeps(log: Log, seen: nat, identities: set<ObjectId>, target: Target, left: set<ObjectId>,
                     lastSent: map<ObjectId, nat>)
    requires seen < |log| && forall o :: o in lastSent ==> lastSent[o] <= seen
    requires NothingMissed(log, seen, identities, target, left, lastSent)
    requires AllListedReached(log, seen, target, left, lastSent)
    ensures var left' := left + Rechecked(identities, target, log[seen]);
            && NothingMissed(log, seen + 1, identities, target, left', lastSent)
            && AllListedReached(log, seen + 1, target, left', lastSent)
  {
    hide Rechecked, WrittenBy, Replay;
    var t := log[seen];
    var left' := left + Rechecked(identities, target, t);
    forall o | o in lastSent && o !in left'
      ensures NotDue(log[lastSent[o]..seen + 1], identities, target, o)
    {
      assert log[lastSent[o]..seen + 1] == log[lastSent[o]..seen] + [t];
    }
    assert log[..seen + 1] == log[..seen] + [t];
    ReplayAppend(log[..seen], t);
    forall m | m in Replay(log[..seen + 1]).members && m.index == target.index
      ensures m.objId in left' || m.objId in lastSent
    {
      assert m in Pairs(t.setAdds) ==> JoinedBy(target, t, m.objId);
    }
  }

  /** Objects sent now count as sent after all transactions so far. */
  lemma SendingKeeps(log: Log, identities: set<ObjectId>, target: Target, left: set<ObjectId>,
                     lastSent: map<ObjectId, nat>, batch: set<ObjectId>)
    requires forall o :: o in lastSent ==> lastSent[o] <= |log|
    requires NothingMissed(log, |log|, identities, target, left, lastSent)
    requires AllListedReached(log, |log|, target, left, lastSent)
    ensures var sent := lastSent + (map o | o in batch :: |log|);
            && NothingMissed(log, |log|, identities, target, left - batch, sent)
            && AllListedReached(log, |log|, target, left - batch, sent)
  {
  }

  /** An object off the list that is written again is back on the list exactly if it was there at the start
      or joins again. */
  lemma BackOnTheList(identities: set<ObjectId>, target: Target, left: set<ObjectId>, pending: seq<Transaction>,
                      o: ObjectId)
    requires o !in left && WrittenIn(pending, o)
    ensures o in left + RecheckedIn(identities, target, pending)
            <==> o in identities || exists t :: t in pending && JoinedBy(target, t, o)
  {
  }

  /** What the store is asked for, for a batch of objects. */
  function FieldsRead(data: Data, batch: set<ObjectId>, fields: set<FieldId>): (r: Buildup)
    ensures r.Keys == KeysOf(batch, fields) && forall k :: k in r ==> r[k] == Lookup(data, FieldValue(k))
  {
    map k | k in KeysOf(batch, fields) :: Lookup(data, FieldValue(k))
  }

  function IndexValuesRead(data: Data, batch: set<ObjectId>, indices: set<FieldId>): (r: Buildup)
    ensures r.Keys == KeysOf(batch, indices) && forall k :: k in r ==> r[k] == Lookup(data, ReverseIndex(k))
  {
    map k | k in KeysOf(batch, indices) :: Lookup(data, ReverseIndex(k))
  }

  lemma ObjectIsRecorded(log: Log, data: Data, o: ObjectId, fields: set<FieldId>, indices: set<FieldId>,
                         values: Buildup, indexValues: Buildup)
    requires FieldsHeld(data, Replay(log)) && ReverseHeld(data, Replay(log))
    requires forall f :: f in fields ==>
               ObjectFieldId(o, f) in values
               && values[ObjectFieldId(o, f)] == Lookup(data, FieldValue(ObjectFieldId(o, f)))
    requires forall f :: f in indices ==>
               ObjectFieldId(o, f) in indexValues
               && indexValues[ObjectFieldId(o, f)] == Lookup(data, ReverseIndex(ObjectFieldId(o, f)))
    ensures SentAt(log, |log|, o, fields, indices, values, indexValues)
  {
    hide Replay;
    assert log[..|log|] == log;
    forall f, v | f in indices
      ensures Lookup(data, ReverseIndex(ObjectFieldId(o, f))) == Some(v)
              <==> Membership(IndexId(f, v), o) in Replay(log).members
    {
      assert ReverseKey(Membership(IndexId(f, v), o)) == ReverseIndex(ObjectFieldId(o, f));
    }
  }

  lemma OtherStaysRecorded(log: Log, n: nat, o: ObjectId, fields: set<FieldId>, indices: set<FieldId>, values: Buildup,
                           indexValues: Buildup, more: Buildup, moreIndexValues: Buildup)
    requires n <= |log| && SentAt(log, n, o, fields, indices, values, indexValues)
    requires forall k :: k in more || k in moreIndexValues ==> k.objId != o
    ensures SentAt(log, n, o, fields, indices, values + more, indexValues + moreIndexValues)
  {
    assert forall f :: ObjectFieldId(o, f) !in more && ObjectFieldId(o, f) !in moreIndexValues;
  }

  lemma SendingIsRecorded(log: Log, data: Data, lastSent: map<ObjectId, nat>, fields: set<FieldId>,
                          indices: set<FieldId>, values: Buildup, indexValues: Buildup, batch: set<ObjectId>)
    requires FieldsHeld(data, Replay(log)) && ReverseHeld(data, Replay(log))
    requires AllSent(log, |log|, lastSent, fields, indices, values, indexValues)
    ensures AllSent(log, |log|, lastSent + (map o | o in batch :: |log|), fields, indices,
                    values + FieldsRead(data, batch, fields), indexValues + IndexValuesRead(data, batch, indices))
  {
    hide Replay, KeysOf, FieldsRead, IndexValuesRead, FieldsHeld, ReverseHeld, SentAt;
    var more, moreIndexValues := FieldsRead(data, batch, fields), IndexValuesRead(data, batch, indices);
    var sent := lastSent + (map o | o in batch :: |log|);
    forall o | o in sent
      ensures SentAt(log, sent[o], o, fields, indices, values + more, indexValues + moreIndexValues)
    {
      if o in batch {
        ObjectIsRecorded(log, data, o, fields, indices, values + more, indexValues + moreIndexValues);
      } else {
        OtherStaysRecorded(log, lastSent[o], o, fields, indices, values, indexValues, more, moreIndexValues);
      }
    }
    assert (values + more).Keys == KeysOf(sent.Keys, fields)
           && (indexValues + moreIndexValues).Keys == KeysOf(sent.Keys, indices);
  }

  /** What an object not written since was sent is what is stored now. */
  lemma {:induction false} UnwrittenIsCurrent(log: Log, n: nat, o: ObjectId, k: ObjectFieldId)
    requires n <= |log| && !WrittenIn(log[n..], o) && k.objId == o
    ensures Lookup(Replay(log[..n]).fields, k) == Lookup(Replay(log).fields, k)
  {
    if n == |log| {
      assert log[..n] == log;
    } else {
      var front, last := log[..|log| - 1], log[|log| - 1];
      assert last in log[n..] && forall t :: t in front[n..] ==> t in log[n..];
      assert front[..n] == log[..n];
      UnwrittenIsCurrent(front, n, o, k);
      assert !WrittenBy(last, o);
    }
  }

  lemma {:induction false} UnwrittenIsListed(log: Log, n: nat, m: Membership)
    requires n <= |log| && !WrittenIn(log[n..], m.objId)
    requires forall t :: t in log ==> WritesWhatItIndexes(t)
    ensures m in Replay(log[..n]).members <==> m in Replay(log).members
  {
    if n == |log| {
      assert log[..n] == log;
    } else {
      var front, last := log[..|log| - 1], log[|log| - 1];
      assert last in log[n..] && forall t :: t in front[n..] ==> t in log[n..];
      assert front[..n] == log[..n];
      UnwrittenIsListed(front, n, m);
      assert !WrittenBy(last, m.objId) && WritesWhatItIndexes(last);
    }
  }

  lemma HeldData(s: Server)
    requires s.Valid()
    ensures FieldsHeld(s.store.data, Replay(s.log)) && ReverseHeld(s.store.data, Replay(s.log))
  {
    hide Replay, Tracks, Serializable, ChannelsInOrder;
  }

  /** Data sent in batches: some values for each of the `sent` objects, among them all that are listed, and what
      is committed for those there at the start. */
  ghost predicate IsBatchedData(data: Transaction, log: Log, sent: set<ObjectId>, initial: set<ObjectId>,
                                target: Target, fields: set<FieldId>, indices: set<FieldId>)
  {
    && data.setRemoves == map[] && (forall k :: k in data.writes <==> k.objId in sent && k.fieldId in fields)
    && initial <= sent && (forall m :: m in Replay(log).members && m.index == target.index ==> m.objId in sent)
    && (forall k :: k in data.writes && k.objId in initial ==> data.writes[k] == Lookup(Replay(log).fields, k))
    && ((forall t :: t in log ==> WritesWhatItIndexes(t)) ==>
          forall m: Membership :: m.objId in initial && m.index.fieldId in indices ==>
            (m in Pairs(data.setAdds) <==> m in Replay(log).members))
  }

  class LargeSubscription {
    const server: Server
    const channel: ChannelId
    const fields: set<FieldId>
    const indices: set<FieldId>
    const target: Target
    var identities: set<ObjectId>
    var identitiesLeftToSend: set<ObjectId>

    /** What the client has been sent so far. */
    var values: Buildup
    var indexValues: Buildup

    /** How many transactions were committed when each object was last sent, and how many were rechecked. */
    ghost var lastSent: map<ObjectId, nat>
    ghost var seen: nat

    ghost predicate Valid()
      reads this, server, server.store
    {
      && server.Valid() && channel in server.sent
      && ProgressValid(server.log)
      && server.pendingSubscriptionRecheck == Some(server.log[seen..])
    }

    ghost predicate ProgressValid(log: Log)
      reads this
    {
      && AllSent(log, seen, lastSent, fields, indices, values, indexValues)
      && NothingMissed(log, seen, identities, target, identitiesLeftToSend, lastSent)
      && AllListedReached(log, seen, target, identitiesLeftToSend, lastSent)
    }

    constructor (server: Server, channel: ChannelId, fields: set<FieldId>, indices: set<FieldId>, target: Target)
      requires server.Valid() && channel in server.sent
      modifies server`pendingSubscriptionRecheck
      ensures Valid() && this.server == server && this.channel == channel
      ensures this.fields == fields && this.indices == indices && this.target == target
      ensures forall o :: o in identities <==> Membership(target.index, o) in Replay(server.log).members
      ensures identitiesLeftToSend == identities && lastSent == map[] && values == map[] && indexValues == map[]
      ensures server.pendingSubscriptionRecheck == Some([])
    {
      hide Replay;
      var members := server.store.GetSetMembers(IndexMembers(target.index));
      this.server, this.channel, this.fields, this.indices, this.target := server, channel, fields, indices, target;
      identities := set x | x in members && x.Identity? :: x.objId;
      identitiesLeftToSend := set x | x in members && x.Identity? :: x.objId;
      values, indexValues, lastSent, seen := map[], map[], map[], |server.log|;
      new;
      server.pendingSubscriptionRecheck := Some([]);
      assert server.log[..|server.log|] == server.log && server.log[seen..] == [];
      assert forall o :: Identity(o) in members <==> Membership(target.index, o) in Replay(server.log).members;
    }

    /** A transaction completed between two batches, accepted or refused. Only one that the server cannot handle
        upsets the subscription, as it upsets the server. */
    method CommitMeanwhile(req: Request, now: int) returns (r: Outcome)
      requires Valid()
      modifies server`curTransactionNum, server`versionNumbers, server`versionNumbersTimestamps, server`sent
      modifies server`pendingSubscriptionRecheck, server`log, server`readSets, server.store
      ensures r.TooOld? || old(server.CanHandle(req)) ==> Valid()
      ensures !r.TooOld? && Pairs(req.setAdds) !! Pairs(req.setRemoves) ==> (Valid() <==> old(server.CanHandle(req)))
      ensures r.TooOld? <==> req.asOfVersion < server.minAcceptableVersionNumber
      ensures old(server.CanHandle(req)) ==>
                (r.Committed? <==> && !r.TooOld? && req.asOfVersion <= old(server.curTransactionNum)
                                   && !Conflicts(old(server.log), req)
                                   && PrerequisitesHold(req, old(server.store.data)))
      ensures server.curTransactionNum == old(server.curTransactionNum) + if r.TooOld? then 0 else 1
      ensures server.log == old(server.log)
                            + if r.Committed? then [TransactionOf(req, server.curTransactionNum)] else []
      ensures var t := TransactionOf(req, server.curTransactionNum);
              server.sent
              == if r.Committed? then SentAfter(old(server.sent), server.fieldIdToChannel, server.idToChannel, t)
                 else old(server.sent)
      ensures server.pendingSubscriptionRecheck
              == if r.Committed? then
                   WithPending(old(server.pendingSubscriptionRecheck), TransactionOf(req, server.curTransactionNum))
                 else old(server.pendingSubscriptionRecheck)
    {
      hide Server.Valid, Server.CanHandle, Replay, AllSent, NothingMissed, AllListedReached, Conflicts;
      hide PrerequisitesHold;
      hide TransactionOf, FieldsHeld, Pairs;
      ghost var log := server.log;
      r := server.CompleteTransaction(req, now);
      if r.Committed? && server.Valid() {
        LogGrew(log, TransactionOf(req, server.curTransactionNum));
      }
    }

    /** A client connecting between two batches. */
    method ConnectMeanwhile(newChannel: ChannelId, connection: ObjectId, existence: IndexId, heartbeats: FieldId,
                            off: Bytes, now: int)
      requires Valid() && newChannel !in server.sent
      requires forall m :: m in Replay(server.log).members ==>
                 !(m.objId == connection && m.index.fieldId == existence.fieldId)
      modifies server`curTransactionNum, server`versionNumbers, server`versionNumbersTimestamps, server`sent
      modifies server`pendingSubscriptionRecheck, server`log, server`readSets, server.store
      ensures Valid() && old(server.log) <= server.log && newChannel in server.sent
    {
      hide Server.Valid, Replay, AllSent, NothingMissed, AllListedReached, TransactionOf, ConnectionRequest;
      ghost var log, asOf := server.log, server.curTransactionNum;
      server.AddConnection(newChannel, connection, existence, heartbeats, off, now);
      LogGrew(log,
              TransactionOf(ConnectionRequest(connection, existence, heartbeats, off, asOf), server.curTransactionNum));
    }

    /** A small subscription, of any channel, served between two batches. */
    method SubscribeMeanwhile(other: ChannelId, otherFields: set<FieldId>, otherIndices: set<FieldId>,
                              existence: IndexId)
      requires Valid() && other in server.sent
      modifies server`sent, server`fieldIdToChannel, server`mirrors, server`stale
      ensures Valid() && server.stale == old(server.stale)
      ensures server.fieldIdToChannel == WithSubscriber(old(server.fieldIdToChannel), other, otherFields)
      ensures var objects := Existing(server.store.sets, existence);
              var data := SnapshotOf(server.store.data, objects, otherFields, otherIndices, server.curTransactionNum);
              && server.sent == old(server.sent)[other := old(server.sent)[other] + [data]]
              && server.mirrors == old(server.mirrors) + NewMirrors(other, server.log, server.sent[other], otherFields,
                                                                    otherIndices, server.curTransactionNum)
    {
      hide Server.Valid, ProgressValid, Replay, SnapshotOf, Suffices, WithSubscriber, Mirrors, NewMirrors;
      server.HandleSubscriptionInForeground(other, otherFields, otherIndices, existence);
    }

    /** Version numbers forgotten between two batches. */
    method GarbageCollectMeanwhile(threshold: int)
      requires Valid()
      modifies server`versionNumbers, server`versionNumbersTimestamps, server`minAcceptableVersionNumber
      ensures Valid() && old(server.minAcceptableVersionNumber) <= server.minAcceptableVersionNumber
      ensures forall k :: OfField(k) in old(server.versionNumbers) ==>
                (OfField(k) in server.versionNumbers
                 <==> !(&& OfField(k) in old(server.versionNumbersTimestamps)
                        && old(server.versionNumbersTimestamps)[OfField(k)] < threshold
                        && k !in Replay(server.log).fields))
      ensures forall i :: OfIndex(i) in old(server.versionNumbers) ==>
                (OfIndex(i) in server.versionNumbers
                 <==> !(&& OfIndex(i) in old(server.versionNumbersTimestamps)
                        && old(server.versionNumbersTimestamps)[OfIndex(i)] < threshold
                        && forall m :: m in Replay(server.log).members ==> m.index != i))
    {
      hide Server.Valid, ProgressValid;
      server.GarbageCollect(threshold);
    }

    lemma LogGrew(log: Log, t: Transaction)
      requires server.Valid() && channel in server.sent && server.log == log + [t]
      requires ProgressValid(log) && server.pendingSubscriptionRecheck == Some(log[seen..] + [t])
      ensures Valid()
    {
      hide Server.Valid, Replay, AllSent, NothingMissed, AllListedReached;
      AllSentGrows(log, t, seen, lastSent, fields, indices, values, indexValues);
      LastSentBounded(log);
      OthersGrow(log, t, seen, identities, target, identitiesLeftToSend, lastSent);
      assert (log + [t])[seen..] == log[seen..] + [t];
    }

    lemma LastSentBounded(log: Log)
      requires AllSent(log, seen, lastSent, fields, indices, values, indexValues)
      ensures seen <= |log| && forall o :: o in lastSent ==> lastSent[o] <= seen
    {
    }

    /** Put rewritten and new objects back on the list, transaction by transaction. */
    method Recheck()
      requires Valid()
      modifies this`identitiesLeftToSend, this`seen
      ensures ProgressValid(server.log) && seen == |server.log|
      ensures identitiesLeftToSend ==
              old(identitiesLeftToSend) + RecheckedIn(identities, target, old(server.pendingSubscriptionRecheck.value))
    {
      hide Rechecked, RecheckedIn, Server.Valid, Replay, SentAt, NothingMissed, AllListedReached;
      var pending := server.pendingSubscriptionRecheck.value;
      var n := 0;
      while n < |pending|
        invariant 0 <= n <= |pending| && seen == old(seen) + n
        invariant identitiesLeftToSend == old(identitiesLeftToSend) + RecheckedIn(identities, target, pending[..n])
        invariant ProgressValid(server.log)
        decreases |pending| - n
      {
        assert pending[n] == server.log[seen];
        RecheckedOneMore(identities, target, pending, n);
        RecheckKeeps(server.log, seen, identities, target, identitiesLeftToSend, lastSent);
        identitiesLeftToSend := identitiesLeftToSend + Rechecked(identities, target, pending[n]);
        seen := seen + 1;
        n := n + 1;
      }
      assert pending[..n] == pending;
    }

    /** Take up to `batchSize` objects off the list. */
    method TakeBatch(batchSize: nat) returns (toSend: set<ObjectId>)
      modifies this`identitiesLeftToSend
      ensures toSend + identitiesLeftToSend == old(identitiesLeftToSend) && toSend !! identitiesLeftToSend
      ensures |toSend| <= batchSize && (identitiesLeftToSend == {} || |toSend| == batchSize)
    {
      toSend := {};
      while identitiesLeftToSend != {} && |toSend| < batchSize
        invariant toSend + identitiesLeftToSend == old(identitiesLeftToSend) && toSend !! identitiesLeftToSend
        invariant |toSend| <= batchSize
        decreases identitiesLeftToSend
      {
        ghost var some := AnElement(identitiesLeftToSend);
        var o :| o in identitiesLeftToSend;
        toSend := toSend + {o};
        identitiesLeftToSend := identitiesLeftToSend - {o};
      }
    }

    /** Read the objects' data from the store and send it. */
    method SendBatch(toSend: set<ObjectId>, ghost left: set<ObjectId>)
      requires server.Valid() && seen == |server.log| && identitiesLeftToSend == left - toSend
      requires AllSent(server.log, seen, lastSent, fields, indices, values, indexValues)
      requires NothingMissed(server.log, seen, identities, target, left, lastSent)
      requires AllListedReached(server.log, seen, target, left, lastSent)
      modifies this`values, this`indexValues, this`lastSent
      ensures ProgressValid(server.log)
      ensures values == old(values) + FieldsRead(server.store.data, toSend, fields)
      ensures indexValues == old(indexValues) + IndexValuesRead(server.store.data, toSend, indices)
      ensures lastSent == old(lastSent) + (map o | o in toSend :: |server.log|)
    {
      hide AllSent, NothingMissed, AllListedReached, Replay, FieldsRead, IndexValuesRead, Tracks, Serializable;
      hide Server.ChannelsValid;
      LastSentBounded(server.log);
      SendingKeeps(server.log, identities, target, left, lastSent, toSend);
      SendingIsRecorded(server.log, server.store.data, lastSent, fields, indices, values, indexValues, toSend);
      values := values + FieldsRead(server.store.data, toSend, fields);
      indexValues := indexValues + IndexValuesRead(server.store.data, toSend, indices);
      lastSent := lastSent + (map o | o in toSend :: |server.log|);
    }

    /** One batch, under the lock: a full batch of what is due, or all of it, is sent as stored now. */
    method SendPartialSubscription(batchSize: nat) returns (done: bool, ghost sentNow: set<ObjectId>)
      requires Valid() && 0 < batchSize
      modifies this, server`pendingSubscriptionRecheck
      ensures Valid() && server.pendingSubscriptionRecheck == Some([]) && identities == old(identities)
      ensures sentNow + identitiesLeftToSend
              == old(identitiesLeftToSend)
                 + RecheckedIn(identities, target, old(server.pendingSubscriptionRecheck.value))
      ensures sentNow !! identitiesLeftToSend
      ensures |sentNow| <= batchSize && (identitiesLeftToSend == {} || |sentNow| == batchSize)
      ensures lastSent == old(lastSent) + (map o | o in sentNow :: |server.log|)
      ensures values == old(values) + FieldsRead(server.store.data, sentNow, fields)
      ensures indexValues == old(indexValues) + IndexValuesRead(server.store.data, sentNow, indices)
      ensures done <==> identitiesLeftToSend == {}
      ensures old(server.pendingSubscriptionRecheck) == Some([]) && !done ==>
                identitiesLeftToSend < old(identitiesLeftToSend)
    {
      hide AllSent, NothingMissed, AllListedReached, Replay, Server.Valid, Rechecked, RecheckedIn, FieldsRead;
      hide IndexValuesRead;
      Recheck();
      NothingRechecked(identities, target);
      ghost var left := identitiesLeftToSend;
      var toSend := TakeBatch(batchSize);
      SendBatch(toSend, left);
      server.SetRecheck(Some([]));
      assert server.log[seen..] == [];
      sentNow := toSend;
      done := identitiesLeftToSend == {};
    }

    /** Nothing sent for the object has been overwritten since. */
    ghost predicate UpToDate(log: Log, o: ObjectId)
      reads this`lastSent
    {
      o in lastSent && lastSent[o] <= |log| && !WrittenIn(log[lastSent[o]..], o)
    }

    /** The delivery theorem: when nothing is left to send, the client has, for every object that was there
        at the start, what is stored now, whatever was committed between the batches. */
    lemma InitialSetDelivered()
      requires Valid() && identitiesLeftToSend == {} && server.pendingSubscriptionRecheck == Some([])
      ensures forall o :: o in identities ==> UpToDate(server.log, o)
      ensures forall m :: m in Replay(server.log).members && m.index == target.index ==> m.objId in lastSent
    {
      hide Replay, SentAt, Rechecked, WrittenBy;
      AllIsSeen();
      forall o | o in identities
        ensures UpToDate(server.log, o)
      {
        assert NotDue(server.log[lastSent[o]..], identities, target, o);
      }
    }

    lemma AllIsSeen()
      requires Valid() && identitiesLeftToSend == {} && server.pendingSubscriptionRecheck == Some([])
      ensures seen == |server.log| && server.log[..seen] == server.log
      ensures forall o :: o in identities ==> o in lastSent
      ensures forall o :: o in lastSent ==>
                lastSent[o] <= |server.log| && NotDue(server.log[lastSent[o]..], identities, target, o)
    {
      hide Replay, SentAt, NotDue;
      assert |server.log[seen..]| == 0;
      forall o | o in lastSent
        ensures NotDue(server.log[lastSent[o]..], identities, target, o)
      {
        assert server.log[lastSent[o]..seen] == server.log[lastSent[o]..];
      }
    }

    /** Which of the objects sent are outdated in the end: those with a write that did not put them back on the
        list. They were not there at the start, and have not joined again since they were sent. */
    lemma OutdatedWereOverlooked(o: ObjectId)
      requires Valid() && identitiesLeftToSend == {} && server.pendingSubscriptionRecheck == Some([])
      requires o in lastSent
      ensures lastSent[o] <= |server.log|
      ensures !UpToDate(server.log, o) <==>
              exists t :: t in server.log[lastSent[o]..] && WrittenBy(t, o) && o !in Rechecked(identities, target, t)
      ensures !UpToDate(server.log, o) ==>
                o !in identities && forall t :: t in server.log[lastSent[o]..] ==> !JoinedBy(target, t, o)
    {
      hide Valid, Replay, WrittenBy, JoinedBy;
      AllIsSeen();
    }

    lemma UpToDateIsStored(o: ObjectId)
      requires Valid() && UpToDate(server.log, o)
      ensures forall f :: f in fields ==>
                var k := ObjectFieldId(o, f);
                k in values && values[k] == Lookup(server.store.data, FieldValue(k))
      ensures (forall t :: t in server.log ==> WritesWhatItIndexes(t)) ==>
                forall f :: f in indices ==>
                  var k := ObjectFieldId(o, f);
                  k in indexValues && indexValues[k] == Lookup(server.store.data, ReverseIndex(k))
    {
      hide Replay, WrittenBy, WritesWhatItIndexes;
      var log, n, data := server.log, lastSent[o], server.store.data;
      assert SentAt(log, n, o, fields, indices, values, indexValues);
      forall f | f in fields
        ensures values[ObjectFieldId(o, f)] == Lookup(data, FieldValue(ObjectFieldId(o, f)))
      {
        UnwrittenIsCurrent(log, n, o, ObjectFieldId(o, f));
      }
      if forall t :: t in log ==> WritesWhatItIndexes(t) {
        forall f | f in indices
          ensures indexValues[ObjectFieldId(o, f)] == Lookup(data, ReverseIndex(ObjectFieldId(o, f)))
        {
          var k := ObjectFieldId(o, f);
          forall v
            ensures indexValues[k] == Some(v) <==> Lookup(data, ReverseIndex(k)) == Some(v)
          {
            UnwrittenIsListed(log, n, Membership(IndexId(f, v), o));
            assert ReverseKey(Membership(IndexId(f, v), o)) == ReverseIndex(k);
          }
        }
      }
    }

    /** What the client is told in the end: of the objects there at the start exactly what is committed, and
        something of all others that are listed now. */
    lemma CompletionData()
      requires Valid() && identitiesLeftToSend == {} && server.pendingSubscriptionRecheck == Some([])
      ensures IsBatchedData(DataOf(values, indexValues, server.curTransactionNum), server.log, lastSent.Keys,
                            identities, target, fields, indices)
    {
      hide Replay, Server.Valid, WritesWhatItIndexes, WrittenBy, NothingMissed, AllListedReached, SentAt, UpToDate;
      InitialSetDelivered();
      var data := server.store.data;
      HeldData(server);
      forall k | k in values && k.objId in identities
        ensures values[k] == Lookup(Replay(server.log).fields, k)
      {
        UpToDateIsStored(k.objId);
        assert k == ObjectFieldId(k.objId, k.fieldId);
      }
      AllIsSeen();
      assert forall o :: o in identities ==> o in lastSent.Keys;
      if forall t :: t in server.log ==> WritesWhatItIndexes(t) {
        forall m: Membership | m.objId in identities && m.index.fieldId in indices
          ensures m in Pairs(IndexValuesToSetAdds(indexValues)) <==> m in Replay(server.log).members
        {
          UpToDateIsStored(m.objId);
          assert ReverseKey(m) == ReverseIndex(ObjectFieldId(m.objId, m.index.fieldId));
        }
      }
    }

    /** All that was sent is still what is stored. */
    ghost predicate AllUpToDate()
      reads this, server
    {
      && (forall o :: o in lastSent ==> UpToDate(server.log, o))
      && (forall t :: t in server.log ==> WritesWhatItIndexes(t))
    }

    /** Mark the subscription complete. A type is followed by its fields, an index value by the objects there
        at the start. If also no joining object was written again after it was sent, the client ends up with
        the same mirrors as if it had been served in one go; if one was, this one channel is given up. */
    method Complete()
      requires Valid() && identitiesLeftToSend == {} && server.pendingSubscriptionRecheck == Some([])
      modifies server`sent, server`fieldIdToChannel, server`idToChannel, server`mirrors, server`stale
      modifies server`pendingSubscriptionRecheck
      ensures server.Valid() && server.pendingSubscriptionRecheck == None
      ensures forall o :: o in identities ==> UpToDate(server.log, o)
      ensures var (tid, data) := (server.curTransactionNum, DataOf(values, indexValues, server.curTransactionNum));
              && server.sent == old(server.sent)[channel := old(server.sent)[channel] + [data]]
              && server.stale == if data == SnapshotOf(server.store.data, lastSent.Keys, fields, indices, tid) then
                                   old(server.stale)
                                 else old(server.stale) + {channel}
      ensures server.fieldIdToChannel
              == if target.WholeType? then WithSubscriber(old(server.fieldIdToChannel), channel, fields)
                 else old(server.fieldIdToChannel)
      ensures server.idToChannel == if target.WholeType? then old(server.idToChannel)
                                    else WithSubscriber(old(server.idToChannel), channel, identities)
      ensures old(AllUpToDate()) ==> server.stale == old(server.stale)
      ensures server.mirrors == old(server.mirrors) + if target.OneIndexValue? then {} else
                NewMirrors(channel, server.log, server.sent[channel], fields, indices, server.curTransactionNum)
      ensures channel !in server.stale ==>
                forall f :: Mirrors(server.sent[channel], server.log, f, server.curTransactionNum) <==>
                  Suffices(Replay(old(server.sent)[channel]), Replay(server.log), f, lastSent.Keys, fields, indices)
    {
      hide Replay, AllSent, NothingMissed, AllListedReached, AllUpToDate, UpToDate, Server.Valid, Suffices, Mirrors;
      hide SnapshotOf, WithSubscriber, NewMirrors, IndexValuesToSetAdds;
      InitialSetDelivered();
      var snap := DataOf(values, indexValues, server.curTransactionNum);
      if AllUpToDate() {
        UpToDateIsSnapshot();
      }
      server.SendSubscriptionData(channel, snap, lastSent.Keys, fields, indices);
      if target.WholeType? {
        server.FollowFields(channel, fields, indices);
      } else {
        server.FollowObjects(channel, identities);
      }
      server.SetRecheck(None);
    }

    lemma UpToDateIsSnapshot()
      requires Valid() && AllUpToDate()
      ensures DataOf(values, indexValues, server.curTransactionNum)
              == SnapshotOf(server.store.data, lastSent.Keys, fields, indices, server.curTransactionNum)
    {
      hide Replay, UpToDate, Server.Valid, IndexValuesToSetAdds, WritesWhatItIndexes, NothingMissed, AllListedReached;
      hide SentAt, SnapshotOf;
      var data := server.store.data;
      forall k | k in values
        ensures values[k] == Lookup(data, FieldValue(k))
      {
        UpToDateIsStored(k.objId);
        assert k == ObjectFieldId(k.objId, k.fieldId);
      }
      forall k | k in indexValues
        ensures indexValues[k] == Lookup(data, ReverseIndex(k))
      {
        UpToDateIsStored(k.objId);
        assert k == ObjectFieldId(k.objId, k.fieldId);
      }
      IsSnapshot(data, lastSent.Keys, fields, indices, values, indexValues, server.curTransactionNum);
    }

    /** Once no more transactions come in between, the subscription is completed after finitely many batches. */
    method Drain(batchSize: nat)
      requires Valid() && 0 < batchSize
      modifies this, server`pendingSubscriptionRecheck
      ensures Valid() && identitiesLeftToSend == {} && server.pendingSubscriptionRecheck == Some([])
      ensures identities == old(identities)
    {
      hide Valid;
      var done, sentNow := SendPartialSubscription(batchSize);
      while !done
        invariant Valid() && server.pendingSubscriptionRecheck == Some([]) && identities == old(identities)
        invariant done <==> identitiesLeftToSend == {}
        decreases identitiesLeftToSend
      {
        done, sentNow := SendPartialSubscription(batchSize);
      }
    }
  }

  lemma IsSnapshot(data: Data, objects: set<ObjectId>, fields: set<FieldId>, indices: set<FieldId>, values: Buildup,
                   indexValues: Buildup, tid: TransactionId)
    requires values.Keys == KeysOf(objects, fields)
    requires forall k :: k in values ==> values[k] == Lookup(data, FieldValue(k))
    requires indexValues.Keys == KeysOf(objects, indices)
    requires forall k :: k in indexValues ==> indexValues[k] == Lookup(data, ReverseIndex(k))
    ensures DataOf(values, indexValues, tid) == SnapshotOf(data, objects, fields, indices, tid)
  {
    hide IndexValuesToSetAdds, KeysOf;
    assert values == map k | k in KeysOf(objects, fields) :: Lookup(data, FieldValue(k));
    assert indexValues == map k | k in KeysOf(objects, indices) :: Lookup(data, ReverseIndex(k));
  }

  /** What the example's transactions write: the value of field 2 of the objects 7 and 8. */
  function Assigned(value: Bytes): map<ObjectFieldId, Option<Bytes>> {
    map[ObjectFieldId(7, 2) := Some(value), ObjectFieldId(8, 2) := Some(value)]
  }

  /** How the two objects are created, listed in an index of field 1. */
  function Creation(asOf: TransactionId): Request {
    Request(Assigned([1]), map[], map[IndexId(1, []) := {7, 8}], map[], {}, {}, asOf)
  }

  function Rewriting(asOf: TransactionId): Request {
    Request(Assigned([2]), map[], map[], map[], {}, {}, asOf)
  }

  lemma UncheckedIsAccepted(s: Server, asOf: TransactionId)
    ensures !Conflicts(s.log, Creation(asOf)) && PrerequisitesHold(Creation(asOf), s.store.data)
    ensures !Conflicts(s.log, Rewriting(asOf)) && PrerequisitesHold(Rewriting(asOf), s.store.data)
    ensures |s.log| == 0 ==> s.CanHandle(Creation(asOf))
    ensures s.CanHandle(Rewriting(asOf))
    ensures Creation(asOf).asOfVersion == Rewriting(asOf).asOfVersion == asOf
    ensures Creation(asOf).writes == Assigned([1]) && Rewriting(asOf).writes == Assigned([2])
  {
  }

  lemma WhatIsDue(asOf: TransactionId, tid: TransactionId)
    ensures RecheckedIn({}, WholeType(IndexId(1, [])), [TransactionOf(Creation(asOf), tid)]) == {7, 8}
    ensures RecheckedIn({}, WholeType(IndexId(1, [])), [TransactionOf(Rewriting(asOf), tid)]) == {}
  {
    var target, created := WholeType(IndexId(1, [])), TransactionOf(Creation(asOf), tid);
    assert created.setAdds == map[IndexId(1, []) := {7, 8}];
    assert forall o :: JoinedBy(target, created, o) <==> o in {7, 8} by {
      assert target.Joins(IndexId(1, []));
    }
    assert [created][0] in [created];
  }

  lemma ServerIsValid(sub: LargeSubscription)
    requires sub.Valid()
    ensures sub.server.Valid() && sub.channel in sub.server.sent
  {
  }

  lemma AssignedIsSent(s: Server, log: Log, req: Request, sent: set<ObjectId>, o: ObjectId)
    requires s.Valid() && s.log == log + [TransactionOf(req, s.curTransactionNum)] && o in {7, 8}
    ensures forall value :: req.writes == Assigned(value) ==>
              Lookup(s.store.data, FieldValue(ObjectFieldId(o, 2))) == Some(value)
    ensures forall value :: req.writes == Assigned(value) && o in sent ==>
              var k, r := ObjectFieldId(o, 2), FieldsRead(s.store.data, sent, {2});
              k in r && r[k] == Some(value)
    ensures o !in sent ==> ObjectFieldId(o, 2) !in FieldsRead(s.store.data, sent, {2})
  {
    hide Tracks, Serializable, ChannelsInOrder;
    ReplayAppend(log, TransactionOf(req, s.curTransactionNum));
    assert FieldsHeld(s.store.data, Replay(s.log));
  }

  /** A subscription to a type without objects, under way on an empty database. */
  method SubscribeToNothing() returns (s: Server, sub: LargeSubscription)
    ensures fresh(s) && fresh(s.store) && fresh(sub) && sub.Valid() && sub.server == s && |s.log| == 0 && s.stale == {}
    ensures s.curTransactionNum == 0 && s.minAcceptableVersionNumber < 0
    ensures sub.fields == {2} && sub.indices == {} && sub.target == WholeType(IndexId(1, []))
    ensures sub.identities == {} && sub.identitiesLeftToSend == {} && s.pendingSubscriptionRecheck == Some([])
  {
    hide Server.Valid;
    s := new Server();
    s.OpenChannel(0);
    sub := new LargeSubscription(s, 0, {2}, {}, WholeType(IndexId(1, [])));
    assert forall o :: o !in sub.identities;
  }

  /** A batch of one takes one of the two objects. */
  lemma OneOfTwo(sentNow: set<ObjectId>, left: set<ObjectId>) returns (o: ObjectId)
    requires sentNow + left == {7, 8} && sentNow !! left && |sentNow| <= 1 && (left == {} || |sentNow| == 1)
    ensures o in {7, 8} && sentNow == {o} && left == {7, 8} - {o}
  {
    assert 7 in sentNow || 7 in left;
    assert 8 in sentNow || 8 in left;
    if 7 in sentNow && 8 in sentNow {
      assert false;
    }
    o := if 7 in sentNow then 7 else 8;
    if left != {} {
      assert |sentNow - {o}| == 0;
    }
  }

  method CommitUnchecked(sub: LargeSubscription, req: Request) returns (ghost t: Transaction)
    requires sub.Valid() && sub.server.CanHandle(req) && sub.server.pendingSubscriptionRecheck == Some([])
    requires !Conflicts(sub.server.log, req) && PrerequisitesHold(req, sub.server.store.data)
    requires req.asOfVersion == sub.server.curTransactionNum && sub.server.minAcceptableVersionNumber < 0
    requires 0 <= sub.server.curTransactionNum
    modifies sub.server, sub.server.store
    ensures t == TransactionOf(req, sub.server.curTransactionNum) && sub.server.log == old(sub.server.log) + [t]
    ensures sub.server.pendingSubscriptionRecheck == Some([t])
    ensures sub.Valid() && sub.server.curTransactionNum == old(sub.server.curTransactionNum) + 1
    ensures sub.server.minAcceptableVersionNumber < 0 && sub.server.stale == old(sub.server.stale)
  {
    hide Server.Valid, LargeSubscription.Valid, Server.CanHandle, Conflicts, PrerequisitesHold, TransactionOf;
    hide SentAfter;
    var r := sub.CommitMeanwhile(req, 0);
    t := TransactionOf(req, sub.server.curTransactionNum);
    assert [] + [t] == [t];
  }

  /** Two objects are created and one of them is sent. */
  method CreateBothSendOne() returns (s: Server, sub: LargeSubscription, ghost o: ObjectId)
    ensures fresh(s) && fresh(s.store) && fresh(sub) && sub.Valid() && sub.server == s && s.stale == {}
    ensures |s.log| == 1 && s.curTransactionNum == 1 && s.minAcceptableVersionNumber < 0
    ensures sub.fields == {2} && sub.target == WholeType(IndexId(1, [])) && sub.identities == {}
    ensures o in {7, 8} && sub.identitiesLeftToSend == {7, 8} - {o} && s.pendingSubscriptionRecheck == Some([])
    ensures ObjectFieldId(o, 2) in sub.values && sub.values[ObjectFieldId(o, 2)] == Some([1])
  {
    hide *;
    s, sub := SubscribeToNothing();
    UncheckedIsAccepted(s, 0);
    ghost var log := s.log;
    ghost var t := CommitUnchecked(sub, Creation(0));
    WhatIsDue(0, 1);
    var done;
    ghost var sentNow;
    done, sentNow := sub.SendPartialSubscription(1);
    o := OneOfTwo(sentNow, sub.identitiesLeftToSend);
    ServerIsValid(sub);
    AssignedIsSent(s, log, Creation(0), sentNow, o);
  }

  /** Both are rewritten, and the other one is sent. */
  method RewriteBothSendOther(sub: LargeSubscription, ghost o: ObjectId)
    requires sub.Valid() && |sub.server.log| == 1 && sub.server.curTransactionNum == 1
    requires sub.server.minAcceptableVersionNumber < 0 && sub.fields == {2} && sub.target == WholeType(IndexId(1, []))
    requires sub.identities == {} && o in {7, 8} && sub.identitiesLeftToSend == {7, 8} - {o}
    requires sub.server.pendingSubscriptionRecheck == Some([])
    modifies sub, sub.server, sub.server.store
    ensures sub.Valid() && sub.identitiesLeftToSend == {} && sub.server.pendingSubscriptionRecheck == Some([])
    ensures sub.server.stale == old(sub.server.stale)
    ensures Lookup(sub.server.store.data, FieldValue(ObjectFieldId(o, 2))) == Some([2])
    ensures ObjectFieldId(o, 2) in old(sub.values) ==>
              ObjectFieldId(o, 2) in sub.values
              && sub.values[ObjectFieldId(o, 2)] == old(sub.values[ObjectFieldId(o, 2)])
  {
    hide *;
    UncheckedIsAccepted(sub.server, 1);
    ghost var t := CommitUnchecked(sub, Rewriting(1));
    WhatIsDue(1, 2);
    var done;
    ghost var sentNow;
    done, sentNow := sub.SendPartialSubscription(1);
    ServerIsValid(sub);
    AssignedIsSent(sub.server, old(sub.server.log), Rewriting(1), sentNow, o);
  }

  lemma OutdatedIsNoSnapshot(data: Data, objects: set<ObjectId>, fields: set<FieldId>, indices: set<FieldId>,
                             values: Buildup, indexValues: Buildup, tid: TransactionId, k: ObjectFieldId)
    requires k in values && values[k] != Lookup(data, FieldValue(k))
    ensures DataOf(values, indexValues, tid) != SnapshotOf(data, objects, fields, indices, tid)
  {
    hide IndexValuesToSetAdds;
    assert k !in SnapshotOf(data, objects, fields, indices, tid).writes
           || SnapshotOf(data, objects, fields, indices, tid).writes[k] == Lookup(data, FieldValue(k));
  }

  /** Outdated data is real. While a subscription to a type without objects is served in batches of one object,
      two objects are created, one of them is sent, both are rewritten, and the other one is sent. The
      subscription completes, and the client is left with the first one's old value. */
  method JoiningObjectGoesStale() returns (s: Server, sub: LargeSubscription, ghost o: ObjectId)
    ensures fresh(s) && s.Valid() && sub.server == s && s.pendingSubscriptionRecheck == None && s.stale == {sub.channel}
    ensures var k := ObjectFieldId(o, 2);
            && k in sub.values && sub.values[k] == Some([1]) && Lookup(s.store.data, FieldValue(k)) == Some([2])
  {
    hide *;
    s, sub, o := CreateBothSendOne();
    RewriteBothSendOther(sub, o);
    OutdatedIsNoSnapshot(s.store.data, sub.lastSent.Keys, sub.fields, sub.indices, sub.values, sub.indexValues,
                         s.curTransactionNum, ObjectFieldId(o, 2));
    assert [1] != [2];
    sub.Complete();
  }
}
