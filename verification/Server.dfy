/** object_database/server.py: the optimistic commit protocol. A transaction names the version it read
    from and the keys it depends on; the server refuses it if any of them changed since, and otherwise
    stores it, gives it the next number and broadcasts it to the channels subscribed to its fields. */
module CommitProtocol {
  import opened Common
  import opened OrderedSets
  import opened Database
  import opened Persistence
  import opened ServerStore
  import opened SubscriptionSnapshot

  type ChannelId = int

  /** What conflicts are checked on: single fields and whole index values. */
  datatype VersionKey = OfField(field: ObjectFieldId) | OfIndex(index: IndexId)

  type VersionNumbers = map<VersionKey, TransactionId>

  datatype Request = Request(
    writes: map<ObjectFieldId, Option<Bytes>>,
    prerequisites: map<ObjectFieldId, Option<Bytes>>,
    setAdds: map<IndexId, set<ObjectId>>,
    setRemoves: map<IndexId, set<ObjectId>>,
    keyVersions: set<ObjectFieldId>,
    indexVersions: set<IndexId>,
    asOfVersion: TransactionId)

  datatype Outcome = Committed | Conflict(key: VersionKey) | TooOld | Failed

  /** What an accepted transaction declared to have read, and at which version. */
  datatype ReadSet = ReadSet(asOf: TransactionId, fields: set<ObjectFieldId>, indices: set<IndexId>)

  /** The channel's client can rely on the field from a transaction on: whatever changes it is sent because
      it also changes a field in `via`, to which the channel is subscribed. A plain field stands for itself; an
      index over several fields has no subscribers of its own. */
  datatype Mirror = Mirror(channel: ChannelId, fieldId: FieldId, since: TransactionId, via: set<FieldId>)

  /** The lists with at least one object. */
  function WithoutEmpty(m: map<IndexId, set<ObjectId>>): (r: map<IndexId, set<ObjectId>>)
    ensures Pairs(r) == Pairs(m) && forall i :: i in r ==> r[i] != {}
  {
    map i | i in m && m[i] != {} :: m[i]
  }

  function Checked(req: Request): set<VersionKey> {
    (set k | k in req.keyVersions :: OfField(k)) + (set i | i in req.indexVersions :: OfIndex(i))
  }

  predicate Touches(t: Transaction, key: VersionKey) {
    match key
    case OfField(k) => k in t.writes
    case OfIndex(i) => ListsIndex(t, i)
  }

  function TouchedKeys(t: Transaction): (s: set<VersionKey>)
    ensures forall key :: key in s <==> Touches(t, key)
  {
    (set k | k in t.writes :: OfField(k)) + (set i | i in t.setAdds.Keys + t.setRemoves.Keys :: OfIndex(i))
  }

  /** Some committed transaction after `v` touched the key. */
  ghost predicate ChangedSince(log: Log, key: VersionKey, v: TransactionId) {
    exists t :: t in log && Touches(t, key) && v < t.tid
  }

  function LastTid(versions: VersionNumbers, key: VersionKey): TransactionId {
    if key in versions then versions[key] else NO_TRANSACTION
  }

  /** A version number is the last transaction touching its key; a key without one was last touched
      no later than the minimum acceptable version. */
  ghost predicate Tracks(versions: VersionNumbers, minimum: TransactionId, log: Log) {
    && (forall t, key :: t in log && Touches(t, key) ==> t.tid <= if key in versions then versions[key] else minimum)
    && (forall key :: key in versions ==> exists t :: t in log && Touches(t, key) && t.tid == versions[key])
  }

  /** The expected values hold. Only keys the transaction also writes are looked up: for any other key
      the comparison is with None. */
  function PrerequisitesHold(req: Request, data: Data): bool {
    forall k :: k in req.prerequisites ==>
      req.prerequisites[k] == if k in req.writes then Lookup(data, FieldValue(k)) else None
  }

  /** Everything an accepted transaction read at its own version was still so when it was committed,
      so the log can be replayed one transaction at a time. */
  ghost predicate Serializable(log: Log, readSets: seq<ReadSet>) {
    && |readSets| == |log|
    && forall n :: 0 <= n < |log| ==> ReadsReplay(log, readSets[n], n)
  }

  ghost predicate ReadsReplay(log: Log, r: ReadSet, n: nat)
    requires n < |log|
  {
    && r.asOf < log[n].tid
    && (forall k :: k in r.fields ==> Lookup(StateAt(log, r.asOf).fields, k) == Lookup(Replay(log[..n]).fields, k))
    && (forall m: Membership :: m.index in r.indices ==>
          (m in StateAt(log, r.asOf).members <==> m in Replay(log[..n]).members))
  }

  lemma CommitStaysSerializable(log: Log, readSets: seq<ReadSet>, t: Transaction, r: ReadSet)
    requires Serializable(log, readSets) && r.asOf < t.tid
    requires forall x :: x in log ==> x.tid < t.tid
    requires forall k :: k in r.fields ==> !ChangedSince(log, OfField(k), r.asOf)
    requires forall i :: i in r.indices ==> !ChangedSince(log, OfIndex(i), r.asOf)
    ensures Serializable(log + [t], readSets + [r])
  {
    forall n | 0 <= n < |log + [t]|
      ensures ReadsReplay(log + [t], (readSets + [r])[n], n)
    {
      var read := (readSets + [r])[n];
      assert (log + [t])[..n] == log[..n];
      StateAtAppend(log, t, read.asOf);
      if n < |log| {
        assert ReadsReplay(log, read, n) && log[n] in log;
      } else {
        assert log[..n] == log;
        UnchangedReads(log, r, t.tid);
      }
    }
  }

  lemma UnchangedReads(log: Log, r: ReadSet, next: TransactionId)
    requires r.asOf < next && forall x :: x in log ==> x.tid < next
    requires forall k :: k in r.fields ==> !ChangedSince(log, OfField(k), r.asOf)
    requires forall i :: i in r.indices ==> !ChangedSince(log, OfIndex(i), r.asOf)
    ensures forall k :: k in r.fields ==> Lookup(StateAt(log, r.asOf).fields, k) == Lookup(Replay(log).fields, k)
    ensures forall m: Membership :: m.index in r.indices ==>
              (m in StateAt(log, r.asOf).members <==> m in Replay(log).members)
  {
    StateAtEnd(log, next);
    forall k | k in r.fields
      ensures Lookup(StateAt(log, r.asOf).fields, k) == Lookup(Replay(log).fields, k)
    {
      assert forall t :: t in log && Touches(t, OfField(k)) ==> t.tid <= r.asOf;
      FieldUntouched(log, k, r.asOf, next);
    }
    forall m: Membership | m.index in r.indices
      ensures m in StateAt(log, r.asOf).members <==> m in Replay(log).members
    {
      assert forall t :: t in log && Touches(t, OfIndex(m.index)) ==> t.tid <= r.asOf;
      IndexUntouched(log, m.index, m.objId, r.asOf, next);
    }
  }

  /** A transaction's checked keys are unchanged exactly when no version number is above its own version,
      as long as that is not below the minimum acceptable one. */
  lemma VersionsDetectChanges(versions: VersionNumbers, minimum: TransactionId, log: Log, key: VersionKey,
                              asOf: TransactionId)
    requires Tracks(versions, minimum, log) && minimum <= asOf && NO_TRANSACTION <= asOf
    ensures asOf < LastTid(versions, key) <==> ChangedSince(log, key, asOf)
  {
  }

  /** Some key the request depends on was changed by a transaction after the version it read. */
  ghost predicate Conflicts(log: Log, req: Request) {
    exists key :: key in Checked(req) && ChangedSince(log, key, req.asOfVersion)
  }

  /** A request conflicts exactly if one of the fields it names was written, or one of the indices listed, after the
      version it names. */
  lemma ConflictsExactly(log: Log, req: Request)
    ensures Conflicts(log, req)
            <==> || (exists k, t :: k in req.keyVersions && t in log && k in t.writes && req.asOfVersion < t.tid)
                 || (exists i, t :: i in req.indexVersions && t in log && (i in t.setAdds || i in t.setRemoves)
                                    && req.asOfVersion < t.tid)
  {
    if k, t :| k in req.keyVersions && t in log && k in t.writes && req.asOfVersion < t.tid {
      assert OfField(k) in Checked(req) && Touches(t, OfField(k));
    }
    if i, t :| i in req.indexVersions && t in log && (i in t.setAdds || i in t.setRemoves) && req.asOfVersion < t.tid {
      assert OfIndex(i) in Checked(req) && Touches(t, OfIndex(i));
    }
  }

  lemma ConflictDetected(versions: VersionNumbers, minimum: TransactionId, log: Log, req: Request, key: VersionKey)
    requires Tracks(versions, minimum, log) && NO_TRANSACTION <= minimum <= req.asOfVersion
    requires key in Checked(req) && req.asOfVersion < LastTid(versions, key)
    ensures ChangedSince(log, key, req.asOfVersion) && Conflicts(log, req)
  {
  }

  lemma ConflictsDetected(versions: VersionNumbers, minimum: TransactionId, log: Log, req: Request)
    requires Tracks(versions, minimum, log) && NO_TRANSACTION <= minimum
    requires minimum <= req.asOfVersion || Checked(req) == {}
    ensures Conflicts(log, req) <==> exists key :: key in Checked(req) && req.asOfVersion < LastTid(versions, key)
  {
  }

  lemma NoConflictsMeansUnchanged(log: Log, req: Request)
    requires !Conflicts(log, req)
    ensures forall k :: k in req.keyVersions ==> !ChangedSince(log, OfField(k), req.asOfVersion)
    ensures forall i :: i in req.indexVersions ==> !ChangedSince(log, OfIndex(i), req.asOfVersion)
  {
  }

  lemma SameConsistency(members: set<Membership>, req: Request, tid: TransactionId)
    ensures var t := TransactionOf(req, tid);
            && NonEmptyLists(t)
            && (Consistent(members, req.setAdds, req.setRemoves) <==> Consistent(members, t.setAdds, t.setRemoves))
            && Pairs(t.setAdds) == Pairs(req.setAdds) && Pairs(t.setRemoves) == Pairs(req.setRemoves)
            && (Accepted(members, req.setAdds, req.setRemoves) <==> Accepted(members, t.setAdds, t.setRemoves))
  {
  }

  /** What the store's assertions check of index changes. */
  ghost predicate Accepted(members: set<Membership>, adds: map<IndexId, set<ObjectId>>,
                           removes: map<IndexId, set<ObjectId>>) {
    Pairs(adds) !! Pairs(removes) ==> Pairs(adds) !! members && Pairs(removes) <= members
  }

  /** A version number nobody committed tells that an update stopped half way. */
  lemma HalfWayIsNotTracked(before: VersionNumbers, minimum: TransactionId, log: Log, members: set<Membership>,
                            t: Transaction)
    requires !Consistent(members, t.setAdds, t.setRemoves) && forall x :: x in log ==> x.tid < t.tid
    ensures !Tracks(before + (map k | k in TouchedKeys(t) :: t.tid), minimum, log)
  {
    assert Pairs(t.setAdds) + Pairs(t.setRemoves) != {};
    var m := AnElement(Pairs(t.setAdds) + Pairs(t.setRemoves));
    var after := before + (map k | k in TouchedKeys(t) :: t.tid);
    assert Touches(t, OfIndex(m.index));
    assert OfIndex(m.index) in after && after[OfIndex(m.index)] == t.tid;
  }

  /** The connection is recorded as existing, with its heartbeats as given, and nothing else changes. */
  ghost predicate RecordsConnection(before: Database, after: Database, connection: ObjectId, existence: IndexId,
                                    heartbeats: FieldId, off: Bytes)
  {
    && Lookup(after.fields, ObjectFieldId(connection, heartbeats)) == Some(off)
    && (heartbeats != existence.fieldId ==>
          Lookup(after.fields, ObjectFieldId(connection, existence.fieldId)) == Some(existence.indexValue))
    && (forall k: ObjectFieldId :: k.objId != connection || k.fieldId !in {existence.fieldId, heartbeats} ==>
          Lookup(after.fields, k) == Lookup(before.fields, k))
    && after.members == before.members + {Membership(existence, connection)}
  }

  lemma ConnectionIsLogged(log: Log, connection: ObjectId, existence: IndexId, heartbeats: FieldId, off: Bytes,
                           asOf: TransactionId, tid: TransactionId)
    ensures var t := TransactionOf(ConnectionRequest(connection, existence, heartbeats, off, asOf), tid);
            RecordsConnection(Replay(log), Replay(log + [t]), connection, existence, heartbeats, off)
  {
    var t := TransactionOf(ConnectionRequest(connection, existence, heartbeats, off, asOf), tid);
    ReplayAppend(log, t);
    hide Replay;
  }

  /** The entry of an object that has none yet can be made. */
  lemma NewConnectionIsConsistent(members: set<Membership>, connection: ObjectId, existence: IndexId,
                                  heartbeats: FieldId, off: Bytes, asOf: TransactionId)
    requires forall m :: m in members ==> !(m.objId == connection && m.index.fieldId == existence.fieldId)
    ensures var req := ConnectionRequest(connection, existence, heartbeats, off, asOf);
            Consistent(members, req.setAdds, req.setRemoves)
  {
  }

  lemma ForgettingStaysTracked(versions: VersionNumbers, minimum: TransactionId, log: Log, key: VersionKey)
    requires Tracks(versions, minimum, log) && key in versions
    ensures Tracks(versions - {key}, Max(minimum, versions[key]), log)
  {
  }

  /** A key has a timestamp if its version number could be forgotten because nothing is committed for it. */
  ghost predicate Stamped(versions: VersionNumbers, timestamps: map<VersionKey, int>, db: Database) {
    && timestamps.Keys <= versions.Keys
    && (forall k :: OfField(k) in versions && k !in db.fields ==> OfField(k) in timestamps)
    && (forall i :: OfIndex(i) in versions && (forall m :: m in db.members ==> m.index != i) ==>
          OfIndex(i) in timestamps)
  }

  lemma CommitStaysStamped(versions: VersionNumbers, timestamps: map<VersionKey, int>, log: Log, t: Transaction,
                           now: int)
    requires Stamped(versions, timestamps, Replay(log))
    ensures Stamped(versions + (map k | k in TouchedKeys(t) :: t.tid),
                    timestamps + (map k | k in TouchedKeys(t) :: now), Replay(log + [t]))
  {
    ReplayAppend(log, t);
    hide Replay;
    forall i | !Touches(t, OfIndex(i)) && exists m :: m in Replay(log).members && m.index == i
      ensures exists m :: m in Apply(Replay(log), t).members && m.index == i
    {
      var m :| m in Replay(log).members && m.index == i;
      assert m in Apply(Replay(log), t).members;
    }
  }

  lemma CommitStaysTracked(versions: VersionNumbers, minimum: TransactionId, log: Log, t: Transaction)
    requires Tracks(versions, minimum, log)
    requires forall x :: x in log ==> x.tid < t.tid
    ensures Tracks(versions + (map k | k in TouchedKeys(t) :: t.tid), minimum, log + [t])
  {
    var after := versions + (map k | k in TouchedKeys(t) :: t.tid);
    assert t in log + [t] && forall x :: x in log + [t] <==> x in log || x == t;
    forall key | key in after
      ensures exists x :: x in log + [t] && Touches(x, key) && x.tid == after[key]
    {
      if Touches(t, key) {
        assert t in log + [t] && Touches(t, key) && t.tid == after[key];
      } else {
        var x :| x in log && Touches(x, key) && x.tid == versions[key];
        assert x in log + [t];
      }
    }
  }

  /** Some version number was dropped, and `v` is one of those. */
  ghost predicate IsForgotten(before: VersionNumbers, after: VersionNumbers, v: TransactionId) {
    exists key :: key in before && key !in after && before[key] == v
  }

  predicate GoneStale(timestamps: map<VersionKey, int>, threshold: int, key: VersionKey) {
    key in timestamps && timestamps[key] < threshold
  }

  /** Nothing is stored for the key. */
  predicate HoldsNothing(data: Data, sets: Sets, key: VersionKey) {
    match key
    case OfField(k) => Lookup(data, FieldValue(k)).None?
    case OfIndex(i) => Members(sets, IndexMembers(i)) == {}
  }

  /** The objects an existence index lists. */
  function Existing(sets: Sets, existence: IndexId): set<ObjectId> {
    set x | x in Members(sets, IndexMembers(existence)) && x.Identity? :: x.objId
  }

  /** The fields and indices the channel can rely on when it comes to follow `fields` of a type. */
  ghost function NewMirrors(channel: ChannelId, log: Log, c: Log, fields: set<FieldId>, indices: set<FieldId>,
                            tid: TransactionId): set<Mirror>
  {
    set f | f in fields + indices && Mirrors(c, log, f, tid) ::
      Mirror(channel, f, tid, if f in fields then {f} else fields)
  }

  lemma SubscriptionMirrors(data: Data, log: Log, c: Log, objects: set<ObjectId>, fields: set<FieldId>,
                            indices: set<FieldId>, tid: TransactionId)
    requires FieldsHeld(data, Replay(log)) && ReverseHeld(data, Replay(log))
    requires (forall t :: t in log ==> t.tid <= tid) && InStep(c, tid, Replay(log))
    ensures var snap := SnapshotOf(data, objects, fields, indices, tid);
            && snap.tid == tid
            && (forall f, since :: Mirrors(c, log, f, since) ==> Mirrors(c + [snap], log, f, since))
            && (forall f ::
                  Mirrors(c + [snap], log, f, tid) <==> Suffices(Replay(c), Replay(log), f, objects, fields, indices))
  {
    var snap := SnapshotOf(data, objects, fields, indices, tid);
    assert forall t :: t in c ==> t.tid <= tid;
    hide *;
    assert snap.tid == tid by { SnapshotTid(data, objects, fields, indices, tid); }
    forall f, since | Mirrors(c, log, f, since)
      ensures Mirrors(c + [snap], log, f, since)
    {
      SnapshotKeepsMirrors(data, log, c, objects, fields, indices, tid, f, since);
    }
    forall f
      ensures Mirrors(c + [snap], log, f, tid) <==> Suffices(Replay(c), Replay(log), f, objects, fields, indices)
    {
      SnapshotMirrors(data, log, c, objects, fields, indices, tid, f);
    }
  }

  /** A committed transaction has a new number, so it can be sent to a channel or not. */
  lemma CommitStaysInStep(c: Log, log: Log, t: Transaction, passedOn: bool)
    requires InStep(c, t.tid - 1, Replay(log)) && 0 <= t.tid
    ensures InStep(if passedOn then c + [t] else c, t.tid, Replay(log + [t]))
  {
    hide Deliverable, Agrees;
    ReplayAppend(log, t);
    NewNumberAgrees(c, t);
    if passedOn {
      InStepAppend(c, t.tid, Replay(log + [t]), t);
    }
  }

  /** A number given to a refused request is never sent. */
  lemma NumberUsedUp(c: Log, latest: TransactionId, db: Database)
    requires InStep(c, latest, db)
    ensures InStep(c, latest + 1, db)
  {
  }

  /** Subscription data repeats what is stored now, so it can be sent. */
  lemma SnapshotStaysInStep(data: Data, log: Log, c: Log, objects: set<ObjectId>, fields: set<FieldId>,
                            indices: set<FieldId>, tid: TransactionId)
    requires FieldsHeld(data, Replay(log)) && InStep(c, tid, Replay(log)) && 0 <= tid
    ensures InStep(c + [SnapshotOf(data, objects, fields, indices, tid)], tid, Replay(log))
  {
    hide Deliverable, Agrees, Replay;
    var snap := SnapshotOf(data, objects, fields, indices, tid);
    CurrentDataAgrees(c, tid, Replay(log), snap);
    InStepAppend(c, tid, Replay(log), snap);
  }

  type FieldSubscribers = map<FieldId, set<ChannelId>>
  type ObjectSubscribers = map<ObjectId, set<ChannelId>>

  /** The objects a transaction writes to or lists. */
  function MentionedObjects(t: Transaction): (s: set<ObjectId>)
    ensures forall o :: o in s <==> ChangesObject(t, o)
  {
    (set k | k in t.writes :: k.objId) + (set m | m in Pairs(t.setAdds) + Pairs(t.setRemoves) :: m.objId)
  }

  /** The channel is subscribed to some field the transaction touches, or to some object it mentions. */
  predicate Follows(byField: FieldSubscribers, byObject: ObjectSubscribers, c: ChannelId, t: Transaction) {
    || (exists f :: f in TouchedFields(t) && f in byField && c in byField[f])
    || (exists o :: o in MentionedObjects(t) && o in byObject && c in byObject[o])
  }

  /** What each channel has been sent after a broadcast. */
  function SentAfter(sent: map<ChannelId, Log>, byField: FieldSubscribers, byObject: ObjectSubscribers,
                     t: Transaction): (after: map<ChannelId, Log>)
    ensures after.Keys == sent.Keys
  {
    map c | c in sent :: if Follows(byField, byObject, c, t) then sent[c] + [t] else sent[c]
  }

  ghost predicate IsSubscriber<K>(subscribers: map<K, set<ChannelId>>, k: K, c: ChannelId) {
    k in subscribers && c in subscribers[k]
  }

  /** The channel follows one of the fields or indices the transaction changes, or one of the objects it writes to or
      lists. */
  ghost predicate Concerns(byField: FieldSubscribers, byObject: ObjectSubscribers, c: ChannelId, t: Transaction) {
    || (exists f :: ChangesField(t, f) && IsSubscriber(byField, f, c))
    || (exists o :: ChangesObject(t, o) && IsSubscriber(byObject, o, c))
  }

  /** Exactly those channels get it that it concerns. */
  ghost predicate SentToFollowers(before: map<ChannelId, Log>, after: map<ChannelId, Log>, byField: FieldSubscribers,
                                  byObject: ObjectSubscribers, t: Transaction)
  {
    && after.Keys == before.Keys
    && forall c :: c in before ==>
         after[c] == if Concerns(byField, byObject, c, t) then before[c] + [t] else before[c]
  }

  lemma SentExactly(sent: map<ChannelId, Log>, byField: FieldSubscribers, byObject: ObjectSubscribers, t: Transaction)
    ensures SentToFollowers(sent, SentAfter(sent, byField, byObject, t), byField, byObject, t)
  {
    hide ChangesField, ChangesObject, TouchedFields, MentionedObjects;
  }

  /** The channel is subscribed to each of the fields. */
  predicate Subscribed(byField: FieldSubscribers, c: ChannelId, fields: set<FieldId>) {
    forall f :: f in fields ==> f in byField && c in byField[f]
  }

  /** The subscribers once a channel follows some more fields, or objects. */
  function WithSubscriber<K>(subscribers: map<K, set<ChannelId>>, c: ChannelId, keys: set<K>):
    (r: map<K, set<ChannelId>>)
    ensures r.Keys == subscribers.Keys + keys
    ensures forall k, d :: k in r ==>
              (d in r[k] <==> (k in subscribers && d in subscribers[k]) || (k in keys && d == c))
  {
    map f | f in subscribers.Keys + keys ::
      (if f in subscribers then subscribers[f] else {}) + (if f in keys then {c} else {})
  }

  /** Each mirror's channel is subscribed to what carries the field, and as long as that does carry every
      change, it has been sent all it needs. */
  ghost predicate MirrorsOn(mirrors: set<Mirror>, stale: set<ChannelId>, byField: FieldSubscribers,
                            sent: map<ChannelId, Log>, log: Log)
  {
    forall m :: m in mirrors && m.channel !in stale ==>
      && m.channel in sent && Subscribed(byField, m.channel, m.via)
      && (Carried(log, m.fieldId, m.since, m.via) ==> Mirrors(sent[m.channel], log, m.fieldId, m.since))
  }

  /** What was sent, who follows what, and who can rely on it: only open channels follow anything, all mirrors are
      in force, and every client can apply what its channel was sent, message by message. Of the channels sent
      outdated subscription data nothing is known. */
  ghost predicate ChannelsInOrder(sent: map<ChannelId, Log>, byField: FieldSubscribers, byObject: ObjectSubscribers,
                                  mirrors: set<Mirror>, stale: set<ChannelId>, latest: TransactionId, log: Log)
  {
    && MirrorsOn(mirrors, stale, byField, sent, log)
    && (forall m: Mirror :: m in mirrors ==> m.since <= latest)
    && (forall f, c :: f in byField && c in byField[f] ==> c in sent)
    && (forall o, c :: o in byObject && c in byObject[o] ==> c in sent)
    && stale <= sent.Keys
    && (forall c :: c in sent && c !in stale ==> InStep(sent[c], latest, Replay(log)))
  }

  /** Passing a transaction on to those who follow something in it keeps everything in order. */
  lemma BroadcastStaysInOrder(sent: map<ChannelId, Log>, byField: FieldSubscribers, byObject: ObjectSubscribers,
                              mirrors: set<Mirror>, stale: set<ChannelId>, log: Log, t: Transaction)
    requires ChannelsInOrder(sent, byField, byObject, mirrors, stale, t.tid - 1, log) && 0 <= t.tid
    ensures ChannelsInOrder(SentAfter(sent, byField, byObject, t), byField, byObject, mirrors, stale, t.tid, log + [t])
  {
    hide InStep, Mirrors, Replay, Carried, MentionedObjects;
    forall m: Mirror | m in mirrors && m.channel !in stale && Carried(log + [t], m.fieldId, m.since, m.via)
      ensures Mirrors(SentAfter(sent, byField, byObject, t)[m.channel], log + [t], m.fieldId, m.since)
    {
      CarriedStep(log, t, m.fieldId, m.since, m.via);
      MirrorsStep(sent[m.channel], log, m.fieldId, m.since, t, Follows(byField, byObject, m.channel, t));
    }
    forall c | c in sent && c !in stale
      ensures InStep(SentAfter(sent, byField, byObject, t)[c], t.tid, Replay(log + [t]))
    {
      CommitStaysInStep(sent[c], log, t, Follows(byField, byObject, c, t));
    }
  }

  /** Subscription data read off the store leaves everything in order. */
  lemma CurrentDataStaysInOrder(sent: map<ChannelId, Log>, byField: FieldSubscribers, byObject: ObjectSubscribers,
                                mirrors: set<Mirror>, stale: set<ChannelId>, log: Log, data: Data, channel: ChannelId,
                                objects: set<ObjectId>, fields: set<FieldId>, indices: set<FieldId>, tid: TransactionId)
    requires ChannelsInOrder(sent, byField, byObject, mirrors, stale, tid, log) && channel in sent && channel !in stale
    requires FieldsHeld(data, Replay(log)) && ReverseHeld(data, Replay(log))
    requires 0 <= tid && forall t :: t in log ==> t.tid <= tid
    ensures var after := sent[channel] + [SnapshotOf(data, objects, fields, indices, tid)];
            && ChannelsInOrder(sent[channel := after], byField, byObject, mirrors, stale, tid, log)
            && forall f :: Mirrors(after, log, f, tid) <==>
                 Suffices(Replay(sent[channel]), Replay(log), f, objects, fields, indices)
  {
    hide FieldsHeld, ReverseHeld, Replay, SnapshotOf, Mirrors, Suffices, InStep, Carried;
    SubscriptionMirrors(data, log, sent[channel], objects, fields, indices, tid);
    SnapshotStaysInStep(data, log, sent[channel], objects, fields, indices, tid);
  }

  /** Whatever is sent to a channel given up on, all others stay in order. */
  lemma StaleChannelIsIgnored(sent: map<ChannelId, Log>, byField: FieldSubscribers, byObject: ObjectSubscribers,
                              mirrors: set<Mirror>, stale: set<ChannelId>, latest: TransactionId, log: Log,
                              channel: ChannelId, after: Log)
    requires ChannelsInOrder(sent, byField, byObject, mirrors, stale, latest, log) && channel in sent
    ensures ChannelsInOrder(sent[channel := after], byField, byObject, mirrors, stale + {channel}, latest, log)
  {
    hide Mirrors, Carried, InStep;
  }

  /** What a channel has been sent can be relied on from when it is followed. */
  lemma FollowingStaysInOrder(sent: map<ChannelId, Log>, byField: FieldSubscribers, byObject: ObjectSubscribers,
                              mirrors: set<Mirror>, stale: set<ChannelId>, latest: TransactionId, log: Log,
                              channel: ChannelId, fields: set<FieldId>, indices: set<FieldId>)
    requires ChannelsInOrder(sent, byField, byObject, mirrors, stale, latest, log) && channel in sent
    ensures ChannelsInOrder(sent, WithSubscriber(byField, channel, fields), byObject,
                            mirrors + NewMirrors(channel, log, sent[channel], fields, indices, latest),
                            stale, latest, log)
  {
    hide Mirrors, Carried, InStep;
  }

  /** How the server writes down a new connection. */
  function ConnectionRequest(connection: ObjectId, existence: IndexId, heartbeats: FieldId, off: Bytes,
                             asOf: TransactionId): Request {
    Request(map[ObjectFieldId(connection, existence.fieldId) := Some(existence.indexValue),
                ObjectFieldId(connection, heartbeats) := Some(off)],
            map[], map[existence := {connection}], map[], {}, {}, asOf)
  }

  /** While a large subscription is under way, the transactions to be rechecked are collected. */
  function WithPending(pending: Option<seq<Transaction>>, t: Transaction): Option<seq<Transaction>> {
    if pending.Some? then Some(pending.value + [t]) else None
  }

  /** Which transaction a request becomes when it is given number `tid`. */
  function TransactionOf(req: Request, tid: TransactionId): (t: Transaction)
    ensures t.tid == tid && t.writes == req.writes
    ensures Pairs(t.setAdds) == Pairs(req.setAdds) && Pairs(t.setRemoves) == Pairs(req.setRemoves)
  {
    Transaction(tid, req.writes, WithoutEmpty(req.setAdds), WithoutEmpty(req.setRemoves))
  }

  class Server {
    const store: InMemoryPersistence
    var curTransactionNum: TransactionId
    var versionNumbers: VersionNumbers
    var versionNumbersTimestamps: map<VersionKey, int>
    var minAcceptableVersionNumber: TransactionId
    var fieldIdToChannel: FieldSubscribers
    var idToChannel: ObjectSubscribers
    var sent: map<ChannelId, Log>
    var pendingSubscriptionRecheck: Option<seq<Transaction>>

    /** The committed transactions, what each declared to have read, who follows which field since when, and
        the channels that were sent outdated subscription data. */
    ghost var log: Log
    ghost var readSets: seq<ReadSet>
    ghost var mirrors: set<Mirror>
    ghost var stale: set<ChannelId>

    ghost predicate Valid()
      reads this, store
    {
      && StoreValid(log)
      && NO_TRANSACTION <= minAcceptableVersionNumber && 0 <= curTransactionNum
      && (forall t :: t in log ==> 0 < t.tid <= curTransactionNum)
      && Tracks(versionNumbers, minAcceptableVersionNumber, log)
      && Stamped(versionNumbers, versionNumbersTimestamps, Replay(log))
      && Serializable(log, readSets)
      && ChannelsValid(curTransactionNum, log)
    }

    /** The store lays out what the log amounts to. */
    ghost predicate StoreValid(log: Log)
      reads store
    {
      store.Valid() && Holds(store.data, store.sets, Replay(log))
    }

    ghost predicate ChannelsValid(latest: TransactionId, log: Log)
      reads this`sent, this`fieldIdToChannel, this`idToChannel, this`mirrors, this`stale
    {
      ChannelsInOrder(sent, fieldIdToChannel, idToChannel, mirrors, stale, latest, log)
    }

    constructor ()
      ensures Valid() && fresh(store) && log == [] && curTransactionNum == 0
              && minAcceptableVersionNumber == NO_TRANSACTION
      ensures sent == map[] && fieldIdToChannel == map[] && idToChannel == map[] && pendingSubscriptionRecheck == None
      ensures mirrors == {} && stale == {}
    {
      store := new InMemoryPersistence();
      curTransactionNum := 0;
      versionNumbers, versionNumbersTimestamps := map[], map[];
      minAcceptableVersionNumber := NO_TRANSACTION;
      fieldIdToChannel, idToChannel, sent, pendingSubscriptionRecheck := map[], map[], map[], None;
      log, readSets, mirrors, stale := [], [], {}, {};
    }

    /** The first checked key whose last transaction is above the request's version. */
    method FindConflict(req: Request) returns (r: Option<VersionKey>)
      ensures r.Some? ==> r.value in Checked(req) && req.asOfVersion < LastTid(versionNumbers, r.value)
      ensures r.None? ==> forall key :: key in Checked(req) ==> LastTid(versionNumbers, key) <= req.asOfVersion
    {
      var todo := Checked(req);
      while todo != {}
        invariant todo <= Checked(req)
        invariant forall key :: key in Checked(req) && key !in todo ==> LastTid(versionNumbers, key) <= req.asOfVersion
        decreases todo
      {
        ghost var some := AnElement(todo);
        var key :| key in todo;
        if req.asOfVersion < LastTid(versionNumbers, key) {
          return Some(key);
        }
        todo := todo - {key};
      }
      r := None;
    }

    /** What the reverse map must be told about removed and then about added objects. */
    method IndexReverseLookupKvs(adds: map<IndexId, set<ObjectId>>, removes: map<IndexId, set<ObjectId>>)
      returns (res: map<DataKey, Option<Bytes>>)
      ensures IsReverseUpdate(res, adds, removes)
    {
      res := map[];
      var left := Pairs(removes);
      while left != {}
        invariant left <= Pairs(removes)
        invariant IsReverseUpdateOf(res, {}, Pairs(removes) - left)
        decreases left
      {
        ghost var some := AnElement(left);
        var m :| m in left;
        res := res[ReverseKey(m) := None];
        left := left - {m};
      }
      left := Pairs(adds);
      while left != {}
        invariant left <= Pairs(adds)
        invariant IsReverseUpdateOf(res, Pairs(adds) - left, Pairs(removes))
        decreases left
      {
        ghost var some := AnElement(left);
        var m :| m in left;
        res := res[ReverseKey(m) := Some(m.index.indexValue)];
        left := left - {m};
      }
      assert Pairs(adds) - left == Pairs(adds);
    }

    /** The index values named by a set of index keys, per index field. */
    method GroupByField(keys: set<SetKey>) returns (g: Sets)
      requires forall k :: k in keys ==> k.IndexMembers?
      ensures GroupsByField(g, keys)
    {
      g := map[];
      var left := keys;
      while left != {}
        invariant left <= keys
        invariant GroupsByField(g, keys - left)
        decreases left
      {
        ghost var some := AnElement(left);
        var k :| k in left;
        var f := IndexValues(k.index.fieldId);
        ghost var before := g;
        g := g[f := Members(g, f) + {Value(k.index.indexValue)}];
        assert forall j, x ::
                 x in Members(g, j) <==> x in Members(before, j) || (j == f && x == Value(k.index.indexValue));
        left := left - {k};
      }
      assert keys - left == keys;
    }

    /** Write the transaction's values, its index sets, the reverse map, and then the metadata. The values are
        stored whatever happens then; the layout holds afterwards exactly if the index changes agreed with it. */
    method StoreTransaction(t: Transaction) returns (ok: bool)
      requires StoreValid(log)
      requires NonEmptyLists(t)
      modifies store
      ensures FieldsHeld(store.data, Apply(Replay(log), t))
      ensures Consistent(Replay(log).members, t.setAdds, t.setRemoves) ==> ok && StoreValid(log + [t])
      ensures Pairs(t.setAdds) !! Pairs(t.setRemoves) && !Consistent(Replay(log).members, t.setAdds, t.setRemoves) ==>
                !(ok && StoreValid(log + [t]))
      ensures ok ==> Accepted(Replay(log).members, t.setAdds, t.setRemoves)
    {
      hide Holds, Consistent, MetadataPending, Apply, Replay, FieldsHeld, Pairs, ToSets, Accepted;
      hide AddsAreNew, RemovesArePresent;
      var changed := StoreValuesAndSets(t);
      if changed.Thrown? {
        return false;
      }
      ok := StoreMetadata(changed.value, old(store.sets), Apply(Replay(log), t));
      ReplayAppend(log, t);
      HoldsOnlyIfConsistent(old(store.data), old(store.sets), t);
    }

    /** The first call: all but the metadata. */
    method StoreValuesAndSets(t: Transaction) returns (changed: Result<Changed>)
      requires StoreValid(log) && NonEmptyLists(t)
      modifies store
      ensures store.Valid() && FieldsHeld(store.data, Apply(Replay(log), t))
      ensures var adds, removes := ToSets(t.setAdds), ToSets(t.setRemoves);
              changed.Ok? <==> AddsAreNew(old(store.sets), adds) && RemovesArePresent(old(store.sets), adds, removes)
      ensures changed.Ok? ==> forall k :: k in changed.value.newSets + changed.value.droppedSets ==> k.IndexMembers?
      ensures Consistent(Replay(log).members, t.setAdds, t.setRemoves) ==>
                && changed.Ok?
                && MetadataPending(old(store.sets), store.data, store.sets, Apply(Replay(log), t), changed.value)
    {
      hide Holds, Consistent, Updated, MetadataPending, Apply, Replay, FieldsHeld, Pairs, ToSets, ValueKvs;
      hide MembersAfter;
      hide SetsAfter, AddsAreNew, RemovesArePresent, IsReverseUpdate, Members, InMemoryChanged, NoEmpty, NonEmptyLists;
      var reverse := IndexReverseLookupKvs(t.setAdds, t.setRemoves);
      if Consistent(Replay(log).members, t.setAdds, t.setRemoves) {
        FirstUpdate(store.data, store.sets, Replay(log), t, reverse);
      }
      changed := store.SetSeveral(ValueKvs(t.writes) + reverse, ToSets(t.setAdds), ToSets(t.setRemoves));
      ValuesAreStored(old(store.data), old(store.sets), t, reverse);
      OnlyIndexSetsChange(old(store.sets), t, store.sets);
    }

    /** Record the index values that now have objects, and drop those that have none any more. */
    method StoreMetadata(changed: Changed, ghost before: Sets, ghost db: Database) returns (ok: bool)
      requires store.Valid() && forall k :: k in changed.newSets + changed.droppedSets ==> k.IndexMembers?
      modifies store
      ensures store.Valid() && (old(FieldsHeld(store.data, db)) ==> FieldsHeld(store.data, db))
      ensures old(MetadataPending(before, store.data, store.sets, db, changed)) ==>
                ok && Holds(store.data, store.sets, db)
    {
      hide Holds, SetsAfter, MembersAfter, Updated, MetadataPending, GroupsByField, AddsAreNew, RemovesArePresent;
      hide FieldsHeld, NoEmpty;
      ghost var data := store.data;
      var indexSetAdds := GroupByField(changed.newSets);
      var indexSetRemoves := GroupByField(changed.droppedSets);
      if MetadataPending(before, store.data, store.sets, db, changed) {
        SecondUpdate(before, store.data, store.sets, db, changed, indexSetAdds, indexSetRemoves);
      }
      var metadata := store.SetSeveral(map[], indexSetAdds, indexSetRemoves);
      ok := metadata.Ok?;
      if FieldsHeld(data, db) {
        SameDataHolds(data, db);
      }
    }

    lemma ValuesAreStored(data: Data, sets: Sets, t: Transaction, reverse: map<DataKey, Option<Bytes>>)
      requires Holds(data, sets, Replay(log)) && IsReverseUpdate(reverse, t.setAdds, t.setRemoves)
      requires store.data == Updated(data, ValueKvs(t.writes) + reverse)
      ensures FieldsHeld(store.data, Apply(Replay(log), t))
    {
      hide Replay, Apply, IsReverseUpdate;
      ReverseKvsOnly(reverse, t.setAdds, t.setRemoves);
      FieldsStayHeld(data, Replay(log), t, store.data);
    }

    lemma SameDataHolds(data: Data, db: Database)
      requires FieldsHeld(data, db) && store.data == Updated(data, map[])
      ensures FieldsHeld(store.data, db)
    {
    }

    lemma HoldsOnlyIfConsistent(data: Data, sets: Sets, t: Transaction)
      requires Holds(data, sets, Replay(log))
      requires AddsAreNew(sets, ToSets(t.setAdds)) && RemovesArePresent(sets, ToSets(t.setAdds), ToSets(t.setRemoves))
      ensures Pairs(t.setAdds) !! Pairs(t.setRemoves) && StoreValid(log + [t]) ==>
                Consistent(Replay(log).members, t.setAdds, t.setRemoves)
      ensures Accepted(Replay(log).members, t.setAdds, t.setRemoves)
    {
      hide Replay, Consistent, AddsAreNew, RemovesArePresent, IndicesHeld, FieldsHeld, ReverseHeld, ValuesListed, Apply;
      ReplayAppend(log, t);
      if Pairs(t.setAdds) !! Pairs(t.setRemoves) {
        AcceptedChanges(sets, Replay(log), t.setAdds, t.setRemoves);
      }
      if Pairs(t.setAdds) !! Pairs(t.setRemoves) && StoreValid(log + [t]) {
        InconsistentShows(sets, Replay(log), t, store.data);
      }
    }

    /** Pass the transaction on to every channel subscribed to a field it touches, and keep it for a
        subscription that is being served. */
    method Broadcast(t: Transaction)
      requires ChannelsValid(curTransactionNum - 1, log) && 0 <= t.tid == curTransactionNum
      modifies this`sent, this`pendingSubscriptionRecheck
      ensures pendingSubscriptionRecheck == WithPending(old(pendingSubscriptionRecheck), t)
      ensures sent == SentAfter(old(sent), fieldIdToChannel, idToChannel, t)
      ensures SentToFollowers(old(sent), sent, fieldIdToChannel, idToChannel, t)
      ensures ChannelsValid(t.tid, log + [t])
    {
      hide ChannelsInOrder, SentToFollowers;
      pendingSubscriptionRecheck := WithPending(pendingSubscriptionRecheck, t);
      BroadcastStaysInOrder(sent, fieldIdToChannel, idToChannel, mirrors, stale, log, t);
      var byField := set f, c | f in TouchedFields(t) && f in fieldIdToChannel && c in fieldIdToChannel[f] :: c;
      var byObject := set o, c | o in MentionedObjects(t) && o in idToChannel && c in idToChannel[o] :: c;
      var channelsTriggered := byField + byObject;
      assert forall c :: c in channelsTriggered <==> Follows(fieldIdToChannel, idToChannel, c, t);
      SentExactly(sent, fieldIdToChannel, idToChannel, t);
      sent := map c | c in sent :: if c in channelsTriggered then sent[c] + [t] else sent[c];
    }

    /** The index changes of the request agree with the indices, unless it is refused anyway. */
    ghost predicate CanHandle(req: Request)
      reads this, store
    {
      || Consistent(Replay(log).members, req.setAdds, req.setRemoves)
      || curTransactionNum < req.asOfVersion || Conflicts(log, req) || !PrerequisitesHold(req, store.data)
    }

    /** Number the request, check it, and if nothing speaks against it store and broadcast it. */
    method CommitAndBroadcastNewTransaction(req: Request, now: int) returns (r: Outcome)
      requires Valid()
      requires minAcceptableVersionNumber <= req.asOfVersion || Checked(req) == {}
      modifies this`curTransactionNum, this`versionNumbers, this`versionNumbersTimestamps, this`sent
      modifies this`pendingSubscriptionRecheck, this`log, this`readSets, store
      ensures curTransactionNum == old(curTransactionNum) + 1
      ensures r.Committed? || r.Conflict? || r.Failed?
      ensures r.Conflict? <==> req.asOfVersion <= old(curTransactionNum) && Conflicts(old(log), req)
      ensures r.Conflict? ==> r.key in Checked(req) && ChangedSince(old(log), r.key, req.asOfVersion)
      ensures old(CanHandle(req)) ==>
                && Valid()
                && (r.Committed? <==> && req.asOfVersion <= old(curTransactionNum) && !Conflicts(old(log), req)
                                      && PrerequisitesHold(req, old(store.data)))
      ensures Pairs(req.setAdds) !! Pairs(req.setRemoves) ==> (Valid() <==> old(CanHandle(req)))
      ensures !old(CanHandle(req)) ==>
                FieldsHeld(store.data, Apply(Replay(old(log)), TransactionOf(req, curTransactionNum)))
      ensures r.Committed? ==> Accepted(Replay(old(log)).members, req.setAdds, req.setRemoves)
      ensures r.Committed? ==> log == old(log) + [TransactionOf(req, curTransactionNum)]
      ensures r.Committed? ==>
                readSets == old(readSets) + [ReadSet(req.asOfVersion, req.keyVersions, req.indexVersions)]
      ensures !r.Committed? ==> log == old(log) && readSets == old(readSets) && sent == old(sent)
      ensures r.Committed? ==>
                sent == SentAfter(old(sent), fieldIdToChannel, idToChannel, TransactionOf(req, curTransactionNum))
      ensures pendingSubscriptionRecheck ==
              if r.Committed? then WithPending(old(pendingSubscriptionRecheck), TransactionOf(req, curTransactionNum))
              else old(pendingSubscriptionRecheck)
      ensures old(CanHandle(req)) ==>
                forall key :: Lookup(versionNumbersTimestamps, key)
                              == if r.Committed? && Touches(TransactionOf(req, curTransactionNum), key) then Some(now)
                                 else Lookup(old(versionNumbersTimestamps), key)
    {
      hide Holds, Tracks, Serializable, MirrorsOn, PrerequisitesHold, Consistent, Replay, TransactionOf, InStep;
      hide FieldsHeld, Apply, Accepted, Stamped;
      forall c | c in sent && c !in stale
        ensures InStep(sent[c], curTransactionNum + 1, Replay(log))
      {
        NumberUsedUp(sent[c], curTransactionNum, Replay(log));
      }
      curTransactionNum := curTransactionNum + 1;
      ConflictsDetected(versionNumbers, minAcceptableVersionNumber, log, req);
      if curTransactionNum <= req.asOfVersion {
        return Failed;
      }
      var conflict := FindConflict(req);
      if conflict.Some? {
        ConflictDetected(versionNumbers, minAcceptableVersionNumber, log, req, conflict.value);
        return Conflict(conflict.value);
      }
      if !PrerequisitesHold(req, store.data) {
        return Failed;
      }
      var ok := Accept(req, now);
      r := if ok then Committed else Failed;
    }

    method Accept(req: Request, now: int) returns (ok: bool)
      requires StoreValid(log) && ChannelsValid(curTransactionNum - 1, log)
      requires forall t :: t in log ==> 0 < t.tid < curTransactionNum
      requires req.asOfVersion < curTransactionNum && !Conflicts(log, req)
      requires Tracks(versionNumbers, minAcceptableVersionNumber, log) && Serializable(log, readSets)
      requires NO_TRANSACTION <= minAcceptableVersionNumber && 0 < curTransactionNum
      requires Stamped(versionNumbers, versionNumbersTimestamps, Replay(log))
      modifies this`versionNumbers, this`versionNumbersTimestamps, this`sent, this`pendingSubscriptionRecheck
      modifies this`log, this`readSets, store
      ensures ok ==> sent == SentAfter(old(sent), fieldIdToChannel, idToChannel, TransactionOf(req, curTransactionNum))
      ensures pendingSubscriptionRecheck ==
              if ok then WithPending(old(pendingSubscriptionRecheck), TransactionOf(req, curTransactionNum))
              else old(pendingSubscriptionRecheck)
      ensures Consistent(Replay(old(log)).members, req.setAdds, req.setRemoves) ==> ok && Valid()
      ensures Pairs(req.setAdds) !! Pairs(req.setRemoves) ==>
                (Valid() <==> Consistent(Replay(old(log)).members, req.setAdds, req.setRemoves))
      ensures FieldsHeld(store.data, Apply(Replay(old(log)), TransactionOf(req, curTransactionNum)))
      ensures ok ==> Accepted(Replay(old(log)).members, req.setAdds, req.setRemoves)
      ensures ok ==> log == old(log) + [TransactionOf(req, curTransactionNum)]
      ensures ok ==> readSets == old(readSets) + [ReadSet(req.asOfVersion, req.keyVersions, req.indexVersions)]
      ensures versionNumbersTimestamps
              == old(versionNumbersTimestamps)
                 + (map key | key in TouchedKeys(TransactionOf(req, curTransactionNum)) :: now)
      ensures !ok ==> log == old(log) && readSets == old(readSets) && sent == old(sent)
    {
      hide StoreValid, ChannelsValid, StateAt, Apply, Consistent, Replay, Conflicts, Pairs;
      hide Tracks, Serializable, WithoutEmpty, WithPending, Valid, SentAfter, FieldsHeld, Accepted, Stamped;
      var t := TransactionOf(req, curTransactionNum);
      SameConsistency(Replay(log).members, req, curTransactionNum);
      ok := MarkAndStore(t, now);
      if ok {
        Publish(t, req);
      }
      ValidMeansMore();
    }

    /** Give the touched keys their new version numbers, and store the transaction. If that stops half way, version
        numbers are left that nobody committed. */
    method MarkAndStore(t: Transaction, now: int) returns (ok: bool)
      requires StoreValid(log) && NonEmptyLists(t) && forall x :: x in log ==> x.tid < t.tid
      requires Tracks(versionNumbers, minAcceptableVersionNumber, log)
      requires Stamped(versionNumbers, versionNumbersTimestamps, Replay(log))
      modifies this`versionNumbers, this`versionNumbersTimestamps, store
      ensures Stamped(versionNumbers, versionNumbersTimestamps, Replay(log + [t]))
      ensures versionNumbersTimestamps == old(versionNumbersTimestamps) + (map key | key in TouchedKeys(t) :: now)
      ensures ok ==> Tracks(versionNumbers, minAcceptableVersionNumber, log + [t])
      ensures Consistent(Replay(log).members, t.setAdds, t.setRemoves) ==> ok && StoreValid(log + [t])
      ensures Pairs(t.setAdds) !! Pairs(t.setRemoves) && !Consistent(Replay(log).members, t.setAdds, t.setRemoves) ==>
                if ok then !StoreValid(log + [t]) else !Tracks(versionNumbers, minAcceptableVersionNumber, log)
      ensures FieldsHeld(store.data, Apply(Replay(log), t))
      ensures ok ==> Accepted(Replay(log).members, t.setAdds, t.setRemoves)
    {
      hide StoreValid, Apply, Consistent, Replay, Tracks, TouchedKeys, FieldsHeld, Pairs, Accepted, Stamped;
      var keysWritingTo := TouchedKeys(t);
      versionNumbers := versionNumbers + (map k | k in keysWritingTo :: t.tid);
      versionNumbersTimestamps := versionNumbersTimestamps + (map k | k in keysWritingTo :: now);
      CommitStaysStamped(old(versionNumbers), old(versionNumbersTimestamps), log, t, now);
      CommitStaysTracked(old(versionNumbers), minAcceptableVersionNumber, log, t);
      ok := StoreTransaction(t);
      if !Consistent(Replay(log).members, t.setAdds, t.setRemoves) {
        HalfWayIsNotTracked(old(versionNumbers), minAcceptableVersionNumber, log, Replay(log).members, t);
      }
    }

    lemma ValidMeansMore()
      ensures Valid() ==> StoreValid(log) && Tracks(versionNumbers, minAcceptableVersionNumber, log)
    {
      hide StoreValid, Tracks, Serializable, ChannelsInOrder;
    }

    /** Send a transaction that has been stored, and count it as committed. */
    method Publish(t: Transaction, ghost req: Request)
      requires ChannelsValid(curTransactionNum - 1, log) && t.tid == curTransactionNum
      requires forall x :: x in log ==> 0 < x.tid < curTransactionNum
      requires req.asOfVersion < curTransactionNum && !Conflicts(log, req) && Serializable(log, readSets)
      requires Tracks(versionNumbers, minAcceptableVersionNumber, log + [t])
      requires NO_TRANSACTION <= minAcceptableVersionNumber && 0 < curTransactionNum
      requires Stamped(versionNumbers, versionNumbersTimestamps, Replay(log + [t]))
      modifies this`sent, this`pendingSubscriptionRecheck, this`log, this`readSets
      ensures log == old(log) + [t] && sent == SentAfter(old(sent), fieldIdToChannel, idToChannel, t)
      ensures readSets == old(readSets) + [ReadSet(req.asOfVersion, req.keyVersions, req.indexVersions)]
      ensures pendingSubscriptionRecheck == WithPending(old(pendingSubscriptionRecheck), t)
      ensures StoreValid(log) ==> Valid()
    {
      hide StoreValid, ChannelsValid, StateAt, Apply, Replay, Conflicts, ChangedSince, Tracks, Serializable, SentAfter;
      hide WithPending, Stamped;
      ghost var r := ReadSet(req.asOfVersion, req.keyVersions, req.indexVersions);
      NoConflictsMeansUnchanged(log, req);
      CommitStaysSerializable(log, readSets, t, r);
      Broadcast(t);
      log := log + [t];
      readSets := readSets + [r];
    }

    /** The branch for a completed client transaction: too old a version is refused outright. The server comes out
        of it valid exactly if it could handle the request; otherwise what was written is stored without ever
        being sent, or the index entries contradict each other. */
    method CompleteTransaction(req: Request, now: int) returns (r: Outcome)
      requires Valid()
      modifies this`curTransactionNum, this`versionNumbers, this`versionNumbersTimestamps, this`sent
      modifies this`pendingSubscriptionRecheck, this`log, this`readSets, store
      ensures r.TooOld? <==> req.asOfVersion < old(minAcceptableVersionNumber)
      ensures r.TooOld? ==> Valid() && curTransactionNum == old(curTransactionNum)
      ensures !r.TooOld? ==> curTransactionNum == old(curTransactionNum) + 1
      ensures r.Conflict? <==>
                !r.TooOld? && req.asOfVersion <= old(curTransactionNum) && Conflicts(old(log), req)
      ensures old(CanHandle(req)) ==> Valid()
      ensures !r.TooOld? && Pairs(req.setAdds) !! Pairs(req.setRemoves) ==> (Valid() <==> old(CanHandle(req)))
      ensures !r.TooOld? && !old(CanHandle(req)) ==>
                FieldsHeld(store.data, Apply(Replay(old(log)), TransactionOf(req, curTransactionNum)))
      ensures old(CanHandle(req)) ==>
                (r.Committed?
                 <==> && !r.TooOld? && req.asOfVersion <= old(curTransactionNum) && !Conflicts(old(log), req)
                      && PrerequisitesHold(req, old(store.data)))
      ensures r.Committed? ==> Accepted(Replay(old(log)).members, req.setAdds, req.setRemoves)
      ensures r.Committed? ==> log == old(log) + [TransactionOf(req, curTransactionNum)]
      ensures r.Committed? ==>
                readSets == old(readSets) + [ReadSet(req.asOfVersion, req.keyVersions, req.indexVersions)]
      ensures !r.Committed? ==> log == old(log) && readSets == old(readSets) && sent == old(sent)
      ensures r.Committed? ==>
                sent == SentAfter(old(sent), fieldIdToChannel, idToChannel, TransactionOf(req, curTransactionNum))
      ensures pendingSubscriptionRecheck ==
              if r.Committed? then WithPending(old(pendingSubscriptionRecheck), TransactionOf(req, curTransactionNum))
              else old(pendingSubscriptionRecheck)
      ensures old(CanHandle(req)) ==>
                forall key :: Lookup(versionNumbersTimestamps, key)
                              == if r.Committed? && Touches(TransactionOf(req, curTransactionNum), key) then Some(now)
                                 else Lookup(old(versionNumbersTimestamps), key)
    {
      hide Holds, Tracks, Serializable, MirrorsOn, PrerequisitesHold, Consistent, Replay, TransactionOf, InStep;
      hide FieldsHeld, Apply, Accepted, Stamped;
      if req.asOfVersion < minAcceptableVersionNumber {
        return TooOld;
      }
      r := CommitAndBroadcastNewTransaction(req, now);
    }

    /** Write down the connection object of a new client, and open a channel to it. */
    method AddConnection(channel: ChannelId, connection: ObjectId, existence: IndexId, heartbeats: FieldId, off: Bytes,
                         now: int)
      requires Valid() && channel !in sent
      requires forall m :: m in Replay(log).members ==> !(m.objId == connection && m.index.fieldId == existence.fieldId)
      modifies this`curTransactionNum, this`versionNumbers, this`versionNumbersTimestamps, this`sent
      modifies this`pendingSubscriptionRecheck, this`log, this`readSets, store
      ensures Valid() && curTransactionNum == old(curTransactionNum) + 1
      ensures var t := TransactionOf(ConnectionRequest(connection, existence, heartbeats, off, old(curTransactionNum)),
                                     curTransactionNum);
              && log == old(log) + [t]
              && sent == SentAfter(old(sent), fieldIdToChannel, idToChannel, t)[channel := []]
              && pendingSubscriptionRecheck == WithPending(old(pendingSubscriptionRecheck), t)
      ensures RecordsConnection(Replay(old(log)), Replay(log), connection, existence, heartbeats, off)
    {
      hide StoreValid, Tracks, Serializable, ChannelsValid, Replay, TransactionOf, ConnectionRequest, SentAfter;
      hide WithPending, RecordsConnection, Valid;
      ConnectionIsLogged(log, connection, existence, heartbeats, off, curTransactionNum, curTransactionNum + 1);
      CreateConnectionEntry(connection, existence, heartbeats, off, now);
      OpenChannel(channel);
    }

    method CreateConnectionEntry(connection: ObjectId, existence: IndexId, heartbeats: FieldId, off: Bytes, now: int)
      requires Valid()
      requires forall m :: m in Replay(log).members ==> !(m.objId == connection && m.index.fieldId == existence.fieldId)
      modifies this`curTransactionNum, this`versionNumbers, this`versionNumbersTimestamps, this`sent
      modifies this`pendingSubscriptionRecheck, this`log, this`readSets, store
      ensures Valid() && curTransactionNum == old(curTransactionNum) + 1
      ensures var t := TransactionOf(ConnectionRequest(connection, existence, heartbeats, off, old(curTransactionNum)),
                                     curTransactionNum);
              && log == old(log) + [t] && sent == SentAfter(old(sent), fieldIdToChannel, idToChannel, t)
              && pendingSubscriptionRecheck == WithPending(old(pendingSubscriptionRecheck), t)
    {
      var req := ConnectionRequest(connection, existence, heartbeats, off, curTransactionNum);
      NewConnectionIsConsistent(Replay(log).members, connection, existence, heartbeats, off, curTransactionNum);
      assert !Conflicts(log, req) && PrerequisitesHold(req, store.data);
      hide StoreValid, Tracks, Serializable, ChannelsValid, Replay, TransactionOf, ConnectionRequest, SentAfter;
      hide WithPending, Conflicts;
      var r := CommitAndBroadcastNewTransaction(req, now);
    }

    method OpenChannel(channel: ChannelId)
      requires Valid() && channel !in sent
      modifies this`sent
      ensures Valid() && sent == old(sent)[channel := []]
    {
      hide StoreValid, Tracks, Serializable, Mirrors, Carried;
      sent := sent[channel := []];
    }

    /** From now on the channel is sent every transaction that mentions one of the objects. */
    method FollowObjects(channel: ChannelId, objects: set<ObjectId>)
      requires Valid() && channel in sent
      modifies this`idToChannel
      ensures Valid() && idToChannel == WithSubscriber(old(idToChannel), channel, objects)
      ensures forall o, c ::
                IsSubscriber(idToChannel, o, c)
                <==> old(IsSubscriber(idToChannel, o, c)) || (o in objects && c == channel)
    {
      hide StoreValid, Tracks, Serializable, MirrorsOn, InStep;
      idToChannel := WithSubscriber(idToChannel, channel, objects);
    }

    method StoredNothing(key: VersionKey) returns (nothing: bool)
      ensures nothing <==> HoldsNothing(store.data, store.sets, key)
    {
      match key {
        case OfIndex(i) =>
          var members := store.GetSetMembers(IndexMembers(i));
          nothing := members == {};
        case OfField(k) =>
          var value := store.Get(FieldValue(k));
          nothing := value.None?;
      }
    }

    /** Forget the version numbers of old keys that hold nothing any more. From then on no transaction
        reading from before their last change is accepted. */
    method GarbageCollect(threshold: int)
      requires Valid()
      modifies this`versionNumbers, this`versionNumbersTimestamps, this`minAcceptableVersionNumber
      ensures Valid()
      ensures old(minAcceptableVersionNumber) <= minAcceptableVersionNumber
      ensures forall k :: OfField(k) in old(versionNumbers) ==>
                (OfField(k) in versionNumbers
                 <==> !(&& OfField(k) in old(versionNumbersTimestamps)
                        && old(versionNumbersTimestamps)[OfField(k)] < threshold
                        && k !in Replay(log).fields))
      ensures forall i :: OfIndex(i) in old(versionNumbers) ==>
                (OfIndex(i) in versionNumbers
                 <==> !(&& OfIndex(i) in old(versionNumbersTimestamps)
                        && old(versionNumbersTimestamps)[OfIndex(i)] < threshold
                        && forall m :: m in Replay(log).members ==> m.index != i))
      ensures forall key :: key in versionNumbers ==>
                key in old(versionNumbers) && versionNumbers[key] == old(versionNumbers)[key]
      ensures forall key :: key in old(versionNumbers) && key !in versionNumbers ==>
                old(versionNumbers)[key] <= minAcceptableVersionNumber
      ensures minAcceptableVersionNumber == old(minAcceptableVersionNumber)
              || IsForgotten(old(versionNumbers), versionNumbers, minAcceptableVersionNumber)
      ensures forall key :: key in versionNumbersTimestamps <==>
                key in old(versionNumbersTimestamps) && threshold <= old(versionNumbersTimestamps)[key]
      ensures forall key :: key in versionNumbersTimestamps ==>
                versionNumbersTimestamps[key] == old(versionNumbersTimestamps)[key]
      ensures forall k :: OfField(k) in versionNumbers && k !in Replay(log).fields ==>
                OfField(k) in versionNumbersTimestamps && threshold <= versionNumbersTimestamps[OfField(k)]
      ensures forall i :: OfIndex(i) in versionNumbers && (forall m :: m in Replay(log).members ==> m.index != i) ==>
                OfIndex(i) in versionNumbersTimestamps && threshold <= versionNumbersTimestamps[OfIndex(i)]
    {
      hide HoldsNothing, GoneStale, Tracks, StoreValid, Serializable, ChannelsValid, Replay;
      NothingIsCommitted();
      ForgetStale(threshold);
      StaleAreEmpty(old(versionNumbersTimestamps), threshold, old(versionNumbers));
    }

    /** What is left and holds nothing is recent. */
    lemma StaleAreEmpty(timestamps: map<VersionKey, int>, threshold: int, versions: VersionNumbers)
      requires Stamped(versions, timestamps, Replay(log)) && StoreValid(log) && versionNumbers.Keys <= versions.Keys
      requires forall key :: key in versions ==>
                 (key in versionNumbers <==> !(GoneStale(timestamps, threshold, key)
                                               && HoldsNothing(store.data, store.sets, key)))
      requires forall key :: key in versionNumbersTimestamps <==> key in timestamps && threshold <= timestamps[key]
      ensures Stamped(versionNumbers, versionNumbersTimestamps, Replay(log))
    {
      hide HoldsNothing, StoreValid, Replay;
      NothingIsCommitted();
    }

    method ForgetStale(threshold: int)
      requires Tracks(versionNumbers, minAcceptableVersionNumber, log)
      requires versionNumbersTimestamps.Keys <= versionNumbers.Keys
      modifies this`versionNumbers, this`versionNumbersTimestamps, this`minAcceptableVersionNumber
      ensures Tracks(versionNumbers, minAcceptableVersionNumber, log)
      ensures old(minAcceptableVersionNumber) <= minAcceptableVersionNumber
      ensures forall key :: key in old(versionNumbers) ==>
                (key in versionNumbers <==> !(GoneStale(old(versionNumbersTimestamps), threshold, key)
                                              && HoldsNothing(store.data, store.sets, key)))
      ensures forall key :: key in versionNumbers ==>
                key in old(versionNumbers) && versionNumbers[key] == old(versionNumbers)[key]
      ensures forall key :: key in old(versionNumbers) && key !in versionNumbers ==>
                old(versionNumbers)[key] <= minAcceptableVersionNumber
      ensures minAcceptableVersionNumber == old(minAcceptableVersionNumber)
              || IsForgotten(old(versionNumbers), versionNumbers, minAcceptableVersionNumber)
      ensures forall key :: key in versionNumbersTimestamps <==>
                key in old(versionNumbersTimestamps) && threshold <= old(versionNumbersTimestamps)[key]
      ensures forall key :: key in versionNumbersTimestamps ==>
                versionNumbersTimestamps[key] == old(versionNumbersTimestamps)[key]
    {
      hide HoldsNothing, Tracks;
      var newTs := map k | k in versionNumbersTimestamps && threshold <= versionNumbersTimestamps[k] ::
                     versionNumbersTimestamps[k];
      var left := set k | k in versionNumbersTimestamps && versionNumbersTimestamps[k] < threshold;
      while left != {}
        invariant left <= versionNumbersTimestamps.Keys && left <= versionNumbers.Keys
        invariant newTs.Keys <= versionNumbers.Keys && newTs.Keys !! left
        invariant old(minAcceptableVersionNumber) <= minAcceptableVersionNumber
        invariant Tracks(versionNumbers, minAcceptableVersionNumber, log)
        invariant forall key :: key in left ==> GoneStale(old(versionNumbersTimestamps), threshold, key)
        invariant forall key :: key in old(versionNumbers) ==>
                    (key in versionNumbers
                     <==> key in left || !(GoneStale(old(versionNumbersTimestamps), threshold, key)
                                           && HoldsNothing(store.data, store.sets, key)))
        invariant forall key :: key in versionNumbers ==>
                  key in old(versionNumbers) && versionNumbers[key] == old(versionNumbers)[key]
        invariant forall key :: key in old(versionNumbers) && key !in versionNumbers ==>
                  old(versionNumbers)[key] <= minAcceptableVersionNumber
        invariant minAcceptableVersionNumber == old(minAcceptableVersionNumber)
                  || IsForgotten(old(versionNumbers), versionNumbers, minAcceptableVersionNumber)
        decreases left
      {
        ghost var some := AnElement(left);
        var key :| key in left;
        left := left - {key};
        var holdsNothing := StoredNothing(key);
        if holdsNothing {
          ForgettingStaysTracked(versionNumbers, minAcceptableVersionNumber, log, key);
          minAcceptableVersionNumber := Max(minAcceptableVersionNumber, versionNumbers[key]);
          versionNumbers := versionNumbers - {key};
        }
      }
      versionNumbersTimestamps := newTs;
    }

    lemma NoMembersCommitted(i: IndexId)
      requires IndicesHeld(store.sets, Replay(log))
      ensures HoldsNothing(store.data, store.sets, OfIndex(i))
              <==> forall m :: m in Replay(log).members ==> m.index != i
    {
      hide Replay, Members;
      if m :| m in Replay(log).members && m.index == i {
        assert m == Membership(i, m.objId) && Identity(m.objId) in Members(store.sets, IndexMembers(i));
      }
      if x :| x in Members(store.sets, IndexMembers(i)) {
        assert x == Identity(x.objId) && Membership(i, x.objId) in Replay(log).members;
      }
    }

    /** The store holds nothing for a key exactly if nothing is committed for it. */
    lemma NothingIsCommitted()
      requires StoreValid(log)
      ensures forall k :: HoldsNothing(store.data, store.sets, OfField(k)) <==> k !in Replay(log).fields
      ensures forall i :: HoldsNothing(store.data, store.sets, OfIndex(i))
                <==> forall m :: m in Replay(log).members ==> m.index != i
    {
      hide Replay, ReverseHeld, ValuesListed;
      assert FieldsHeld(store.data, Replay(log)) && IndicesHeld(store.sets, Replay(log));
      forall k
        ensures HoldsNothing(store.data, store.sets, OfField(k)) <==> k !in Replay(log).fields
      {
        assert Lookup(store.data, FieldValue(k)) == Lookup(Replay(log).fields, k);
      }
      forall i
        ensures HoldsNothing(store.data, store.sets, OfIndex(i))
                <==> forall m :: m in Replay(log).members ==> m.index != i
      {
        NoMembersCommitted(i);
      }
    }

    /** Send a channel subscription data. If it is what the store holds for `objects`, the channel then has exactly
        those fields and indices right for which the data makes up all the difference. Otherwise the channel
        can no longer be relied on; all others can. */
    method SendSubscriptionData(channel: ChannelId, snap: Transaction, ghost objects: set<ObjectId>,
                                ghost fields: set<FieldId>, ghost indices: set<FieldId>)
      requires Valid() && channel in sent
      modifies this`sent, this`stale
      ensures Valid() && sent == old(sent)[channel := old(sent)[channel] + [snap]]
      ensures var current := snap == SnapshotOf(store.data, objects, fields, indices, curTransactionNum);
              && stale == (if current then old(stale) else old(stale) + {channel})
              && (channel !in stale ==> forall f ::
                    Mirrors(sent[channel], log, f, curTransactionNum)
                    <==> Suffices(Replay(old(sent)[channel]), Replay(log), f, objects, fields, indices))
    {
      hide IndicesHeld, ValuesListed, FieldsHeld, ReverseHeld, Tracks, Serializable, Replay, Suffices, Mirrors;
      hide ChannelsInOrder;
      hide SnapshotOf;
      ghost var current := snap == SnapshotOf(store.data, objects, fields, indices, curTransactionNum);
      ghost var after := sent[channel] + [snap];
      assert FieldsHeld(store.data, Replay(log)) && ReverseHeld(store.data, Replay(log));
      hide StoreValid;
      if current && channel !in stale {
        CurrentDataStaysInOrder(sent, fieldIdToChannel, idToChannel, mirrors, stale, log, store.data, channel, objects,
                                fields, indices, curTransactionNum);
      } else {
        StaleChannelIsIgnored(sent, fieldIdToChannel, idToChannel, mirrors, stale, curTransactionNum, log, channel,
                              after);
        assert channel in stale ==> stale + {channel} == stale;
      }
      sent := sent[channel := sent[channel] + [snap]];
      stale := if current then stale else stale + {channel};
    }

    /** From now on the channel is sent every transaction touching one of the fields. It can rely on the fields
        it already has right, and on the indices over them. */
    method FollowFields(channel: ChannelId, fields: set<FieldId>, ghost indices: set<FieldId>)
      requires Valid() && channel in sent
      modifies this`fieldIdToChannel, this`mirrors
      ensures Valid() && fieldIdToChannel == WithSubscriber(old(fieldIdToChannel), channel, fields)
      ensures mirrors == old(mirrors) + NewMirrors(channel, log, sent[channel], fields, indices, curTransactionNum)
    {
      hide StoreValid, Tracks, Serializable, ChannelsInOrder, NewMirrors, WithSubscriber;
      FollowingStaysInOrder(sent, fieldIdToChannel, idToChannel, mirrors, stale, curTransactionNum, log, channel,
                            fields, indices);
      ghost var more := NewMirrors(channel, log, sent[channel], fields, indices, curTransactionNum);
      fieldIdToChannel := WithSubscriber(fieldIdToChannel, channel, fields);
      mirrors := mirrors + more;
    }

    /** Start over collecting transactions to be rechecked, or stop collecting them. */
    method SetRecheck(pending: Option<seq<Transaction>>)
      modifies this`pendingSubscriptionRecheck
      ensures pendingSubscriptionRecheck == pending
      ensures old(Valid()) ==> Valid()
    {
      hide StoreValid, ChannelsValid, Tracks, Serializable;
      pendingSubscriptionRecheck := pending;
    }

    /** Serve a type subscription in one go: send the current values of the type's objects, and from
        then on every transaction touching its fields. `existence` is the index value that lists the
        objects of the type. */
    method HandleSubscriptionInForeground(channel: ChannelId, fields: set<FieldId>, indices: set<FieldId>,
                                          existence: IndexId)
      requires Valid() && channel in sent
      modifies this`sent, this`fieldIdToChannel, this`mirrors, this`stale
      ensures Valid() && stale == old(stale) && channel in sent
      ensures mirrors == old(mirrors) + NewMirrors(channel, log, sent[channel], fields, indices, curTransactionNum)
      ensures fieldIdToChannel == WithSubscriber(old(fieldIdToChannel), channel, fields)
      ensures var objects := Existing(store.sets, existence);
              && sent == old(sent)[channel := old(sent)[channel]
                                     + [SnapshotOf(store.data, objects, fields, indices, curTransactionNum)]]
              && (channel !in stale ==> forall f ::
                    Mirrors(sent[channel], log, f, curTransactionNum)
                    <==> Suffices(Replay(old(sent)[channel]), Replay(log), f, objects, fields, indices))
    {
      hide Valid, Replay, SnapshotOf, Suffices, Mirrors, WithSubscriber, NewMirrors;
      var members := store.GetSetMembers(IndexMembers(existence));
      var objects := set x | x in members && x.Identity? :: x.objId;
      var snap := SnapshotOf(store.data, objects, fields, indices, curTransactionNum);
      SendSubscriptionData(channel, snap, objects, fields, indices);
      FollowFields(channel, fields, indices);
    }
  }
}
