/** What a client's transaction becomes when it is committed (object_database/view.py, and the `_createTransaction`
    of object_database/database_connection.py), and why the server can rely on it. */
module Commits {
  import opened Common
  import opened OrderedSets
  import opened Database
  import opened ServerStore
  import opened VersionedIdSets
  import opened Replica
  import opened CommitProtocol
  import opened Views
  import opened DatabaseObjectTypes
  import opened Replication
  import opened LargeSubscriptions
  import TransactionChunks

  /** What is sent for a view: everything it changed, checked on everything it read. The prerequisites
      the client computes are thrown away. */
  ghost function RequestOf(view: View): Request
    reads view
  {
    Request(view.ExtractWrites(), map[], WithoutEmpty(view.setAdds), WithoutEmpty(view.setRemoves),
            view.readValues, view.setReads, view.tid)
  }

  /** However large the transaction, what the server puts together from the messages it was split into is
      this request. */
  lemma UploadedRequest(view: View, keys: seq<ObjectFieldId>, indices: seq<IndexId>)
    requires TransactionChunks.Elements(keys) == view.readValues && TransactionChunks.Elements(indices) == view.setReads
    ensures var intended := TransactionChunks.Intended(view.ExtractWrites(), WithoutEmpty(view.setAdds),
                                                       WithoutEmpty(view.setRemoves), keys, indices);
            TransactionChunks.RequestFrom(intended, view.tid) == RequestOf(view)
  {
  }

  /** Every committed state has its indices in step with its fields. */
  ghost predicate AlwaysIndexed(t: ObjectType, log: Log) {
    forall v :: t.Indexed(StateAt(log, v))
  }

  /** For the fields it deals in, the view shows the server's state at its version. */
  ghost predicate Faithful(t: ObjectType, view: View, log: Log)
    reads view
  {
    && (forall i :: i in t.indices ==> SameField(view.base, StateAt(log, view.tid), i))
    && (forall i, f :: i in t.indices && f in t.indices[i] ==> SameField(view.base, StateAt(log, view.tid), f))
    && (forall k :: k in view.readValues ==> SameField(view.base, StateAt(log, view.tid), k.fieldId))
  }

  /** Whatever changed an index also changed one of its fields, so those who follow the fields need not follow
      the index. */
  ghost predicate AlwaysCarried(t: ObjectType, log: Log) {
    forall x :: x in log ==> CarriesIndices(t, x)
  }

  ghost predicate CarriesIndices(t: ObjectType, x: Transaction) {
    forall i :: i in t.indices && i in TouchedFields(x) ==> exists f :: f in t.indices[i] && f in TouchedFields(x)
  }

  lemma AlwaysCarriedIsCarried(t: ObjectType, log: Log, i: FieldId, since: TransactionId, via: set<FieldId>)
    requires AlwaysCarried(t, log) && i in t.indices && forall f :: f in t.indices[i] ==> f in via
    ensures Carried(log, i, since, via)
  {
    hide TouchedFields;
  }

  /** What is written are fields, not indices over several fields. */
  ghost predicate WritesFields(t: ObjectType, view: View)
    reads view
  {
    forall k :: k in view.Cached() && k.fieldId in t.indices ==> k.fieldId in t.indices[k.fieldId]
  }

  lemma CommitStaysCarried(t: ObjectType, view: View, log: Log, tid: TransactionId)
    requires t.Sound(view) && t.Indexed(view.base) && WritesFields(t, view) && AlwaysCarried(t, log)
    ensures AlwaysCarried(t, log + [TransactionOf(RequestOf(view), tid)])
  {
    hide ObjectType.Sound, ObjectType.Indexed, View.Cached, TransactionOf, TouchedFields;
    forall i | i in t.indices && i in TouchedFields(TransactionOf(RequestOf(view), tid))
      ensures exists f :: f in t.indices[i] && f in TouchedFields(TransactionOf(RequestOf(view), tid))
    {
      IndexTouchedWithField(t, view, tid, i);
    }
  }

  lemma IndexTouchedWithField(t: ObjectType, view: View, tid: TransactionId, i: FieldId)
    requires t.Sound(view) && t.Indexed(view.base) && WritesFields(t, view)
    requires i in t.indices && i in TouchedFields(TransactionOf(RequestOf(view), tid))
    ensures exists f :: f in t.indices[i] && f in TouchedFields(TransactionOf(RequestOf(view), tid))
  {
    var tx := TransactionOf(RequestOf(view), tid);
    assert tx.writes.Keys == view.Cached();
    assert tx.setAdds == WithoutEmpty(WithoutEmpty(view.setAdds))
           && tx.setRemoves == WithoutEmpty(WithoutEmpty(view.setRemoves));
    hide ObjectType.Sound, ObjectType.Indexed, View.Cached, TransactionOf, WithoutEmpty;
    if j :| ListsIndex(tx, j) && j.fieldId == i {
      var o := AnElement(if j in tx.setAdds then tx.setAdds[j] else tx.setRemoves[j]);
      assert Membership(j, o) in Pairs(tx.setAdds) + Pairs(tx.setRemoves);
      t.ChangesComeWithWrites(view, Membership(j, o));
    } else {
      var k :| k in tx.writes && k.fieldId == i;
    }
  }

  /** Whether a type's indices are in step depends on its fields and indices only. */
  lemma SameFieldsStayIndexed(t: ObjectType, a: Database, b: Database)
    requires t.Indexed(b) && forall i :: i in t.indices ==> SameField(a, b, i)
    requires forall i, f :: i in t.indices && f in t.indices[i] ==> SameField(a, b, f)
    ensures t.Indexed(a)
  {
    hide ObjectType.IndexValueOf;
    forall i, o | i in t.indices
      ensures t.IndexedAt(a, i, o)
    {
      assert t.IndexedAt(b, i, o) && SameField(a, b, i);
      forall n | 0 <= n < |t.indices[i]|
        ensures Lookup(a.fields, ObjectFieldId(o, t.indices[i][n]))
                == Lookup(b.fields, ObjectFieldId(o, t.indices[i][n]))
      {
        assert SameField(a, b, t.indices[i][n]);
      }
      t.SameValues(a.fields, b.fields, t.indices[i], o);
    }
  }

  lemma FaithfulIsIndexed(t: ObjectType, view: View, log: Log)
    requires AlwaysIndexed(t, log) && Faithful(t, view, log)
    ensures t.Indexed(view.base)
  {
    hide SameField, StateAt, ObjectType.Indexed;
    SameFieldsStayIndexed(t, view.base, StateAt(log, view.tid));
  }

  /** The transaction has nothing to do with the type. */
  ghost predicate LeavesAlone(x: Transaction, t: ObjectType) {
    && (forall i :: i in t.indices ==> i !in TouchedFields(x))
    && (forall i, f :: i in t.indices && f in t.indices[i] ==> f !in TouchedFields(x))
  }

  /** What is committed for other types, or by the server itself for a connection, leaves the indices in step. */
  lemma OtherTypesStayIndexed(t: ObjectType, log: Log, x: Transaction)
    requires AlwaysIndexed(t, log) && AlwaysCarried(t, log) && LeavesAlone(x, t)
    ensures AlwaysIndexed(t, log + [x]) && AlwaysCarried(t, log + [x])
  {
    hide SameField, StateAt, ObjectType.Indexed, TouchedFields, Apply;
    forall v
      ensures t.Indexed(StateAt(log + [x], v))
    {
      StateAtAppend(log, x, v);
      if x.tid <= v {
        var db := StateAt(log, v);
        forall f | f !in TouchedFields(x)
          ensures SameField(Apply(db, x), db, f)
        {
          UntouchedIsSame(db, x, f);
        }
        SameFieldsStayIndexed(t, Apply(db, x), db);
      }
    }
  }

  lemma UntouchedIsSame(db: Database, x: Transaction, f: FieldId)
    requires f !in TouchedFields(x)
    ensures SameField(Apply(db, x), db, f)
  {
    ApplyKeepsSameField(db, db, f, x);
  }

  /** The view started from indices in step with its fields, and whatever it read was committed at its version. All
      that matters for the server: what a view has not read may be outdated. */
  ghost predicate TrueReads(t: ObjectType, view: View, log: Log)
    reads view
  {
    && t.Sound(view) && t.Indexed(view.base)
    && forall k :: k in view.readValues ==> Lookup(view.base.fields, k) == Lookup(StateAt(log, view.tid).fields, k)
  }

  lemma FaithfulReadsTruly(t: ObjectType, view: View, log: Log)
    requires t.Sound(view) && AlwaysIndexed(t, log) && Faithful(t, view, log)
    ensures TrueReads(t, view, log)
  {
    hide StateAt, AlwaysIndexed, ObjectType.Sound, ObjectType.Indexed;
    FaithfulIsIndexed(t, view, log);
    forall k | k in view.readValues
      ensures Lookup(view.base.fields, k) == Lookup(StateAt(log, view.tid).fields, k)
    {
      assert SameField(view.base, StateAt(log, view.tid), k.fieldId);
    }
  }

  /** What nobody changed since the view's version is still what the view read. */
  lemma ReadsStillHold(t: ObjectType, view: View, log: Log, next: TransactionId)
    requires TrueReads(t, view, log) && view.tid < next && forall x :: x in log ==> x.tid < next
    requires !Conflicts(log, RequestOf(view))
    ensures forall k :: k in view.readValues ==> Lookup(Replay(log).fields, k) == Lookup(view.base.fields, k)
  {
    hide StateAt, Replay, Conflicts, ChangedSince, View.ExtractWrites, WithoutEmpty, ObjectType.Sound;
    hide ObjectType.Indexed;
    var req := RequestOf(view);
    NoConflictsMeansUnchanged(log, req);
    UnchangedReads(log, ReadSet(req.asOfVersion, req.keyVersions, req.indexVersions), next);
  }

  lemma CommitStaysIndexed(t: ObjectType, view: View, log: Log, tid: TransactionId)
    requires AlwaysIndexed(t, log) && TrueReads(t, view, log)
    requires view.tid < tid && forall x :: x in log ==> x.tid < tid
    requires !Conflicts(log, RequestOf(view))
    ensures Consistent(Replay(log).members, RequestOf(view).setAdds, RequestOf(view).setRemoves)
    ensures AlwaysIndexed(t, log + [TransactionOf(RequestOf(view), tid)])
  {
    var req := RequestOf(view);
    var tx := TransactionOf(req, tid);
    var plain := Transaction(tid, view.ExtractWrites(), view.setAdds, view.setRemoves);
    assert Pairs(tx.setAdds) == Pairs(view.setAdds) && Pairs(tx.setRemoves) == Pairs(view.setRemoves);
    assert tx.writes == plain.writes && tx.tid == tid;
    assert forall db :: Apply(db, tx) == Apply(db, plain);
    ReadsStillHold(t, view, log, tid);
    hide StateAt, Replay, Conflicts, Apply, ObjectType.Indexed, ObjectType.Recorded, TransactionOf, View.ExtractWrites;
    StateAtEnd(log, tid);
    assert t.Indexed(StateAt(log, tid));
    t.CommitKeepsIndexed(view, Replay(log), tid);
    forall v
      ensures t.Indexed(StateAt(log + [tx], v))
    {
      StateAtAppend(log, tx, v);
      if tid <= v {
        StateAtEnd(log, v);
      }
    }
  }

  /** So the server can handle the request of a sound view exactly if it refuses it anyway, or every entry the view
      moves in an index was right in its snapshot. Nothing on the server's side checks that. */
  lemma HandledExactly(s: Server, t: ObjectType, view: View)
    requires s.Valid() && AlwaysIndexed(t, s.log) && t.Sound(view) && t.Indexed(view.base)
    ensures s.CanHandle(RequestOf(view)) <==>
            s.curTransactionNum < view.tid || Conflicts(s.log, RequestOf(view))
            || t.MovesTrueEntries(view, Replay(s.log))
  {
    var req := RequestOf(view);
    assert Pairs(req.setAdds) == Pairs(view.setAdds) && Pairs(req.setRemoves) == Pairs(view.setRemoves);
    NumbersSoFar(s);
    hide StateAt, Replay, Server.Valid, Conflicts, ObjectType.Indexed, ObjectType.Sound, ObjectType.MovesTrueEntries;
    StateAtEnd(s.log, s.curTransactionNum + 1);
    assert t.Indexed(StateAt(s.log, s.curTransactionNum + 1));
    t.ConsistentExactly(view, Replay(s.log));
  }

  /** What a subscription served in the background relies on holds of every client transaction. */
  lemma CommitsWriteWhatTheyIndex(t: ObjectType, view: View, tid: TransactionId)
    requires t.Sound(view) && t.Indexed(view.base)
    ensures WritesWhatItIndexes(TransactionOf(RequestOf(view), tid))
  {
    var tx := TransactionOf(RequestOf(view), tid);
    assert Pairs(tx.setAdds) == Pairs(view.setAdds) && Pairs(tx.setRemoves) == Pairs(view.setRemoves);
    assert tx.writes.Keys == view.Cached();
    hide ObjectType.Sound, ObjectType.Indexed, View.Cached, TransactionOf;
    forall m | m in Pairs(tx.setAdds) + Pairs(tx.setRemoves)
      ensures WrittenBy(tx, m.objId)
    {
      t.ChangesComeWithWrites(view, m);
    }
  }

  /** Commit a view, of whatever client. The server comes out valid exactly if it could handle the index changes. If
      the fields were only assigned through object types and the reads were true, it always can: it accepts
      the transaction exactly if nothing read has changed since, and the indices of every committed state are
      kept. */
  method Commit(s: Server, t: ObjectType, view: View, now: int) returns (r: Outcome)
    requires s.Valid() && view.Valid()
    modifies s`curTransactionNum, s`versionNumbers, s`versionNumbersTimestamps, s`sent
    modifies s`pendingSubscriptionRecheck, s`log, s`readSets, s.store
    ensures r.TooOld? ==> s.Valid()
    ensures !r.TooOld? ==> (s.Valid() <==> old(s.CanHandle(RequestOf(view))))
    ensures AlwaysIndexed(t, old(s.log)) && TrueReads(t, view, old(s.log)) ==> s.Valid() && AlwaysIndexed(t, s.log)
    ensures t.Sound(view) && t.Indexed(view.base) && AlwaysCarried(t, old(s.log)) && WritesFields(t, view) ==>
              AlwaysCarried(t, s.log)
    ensures r.TooOld? <==> view.tid < old(s.minAcceptableVersionNumber)
    ensures s.curTransactionNum == old(s.curTransactionNum) + if r.TooOld? then 0 else 1
    ensures s.Valid() ==>
              (r.Committed?
               <==> !r.TooOld? && view.tid <= old(s.curTransactionNum) && !Conflicts(old(s.log), RequestOf(view)))
    ensures !s.Valid() ==>
              FieldsHeld(s.store.data, Apply(Replay(old(s.log)), TransactionOf(RequestOf(view), s.curTransactionNum)))
    ensures r.Committed? ==> Accepted(Replay(old(s.log)).members, view.setAdds, view.setRemoves)
    ensures s.log
            == if r.Committed? then old(s.log) + [TransactionOf(RequestOf(view), s.curTransactionNum)] else old(s.log)
    ensures s.sent == if r.Committed? then SentAfter(old(s.sent), s.fieldIdToChannel, s.idToChannel,
                                                     TransactionOf(RequestOf(view), s.curTransactionNum))
                      else old(s.sent)
  {
    hide StateAt, Replay, Server.Valid, Consistent, WithoutEmpty, WritesFields, View.ExtractWrites, SentAfter;
    hide FieldsHeld;
    hide TransactionOf, ObjectType.Sound, ObjectType.Indexed, TrueReads, Conflicts, AlwaysIndexed, AlwaysCarried, Apply;
    hide Accepted;
    var req := Request(view.ExtractWrites(), map[], WithoutEmpty(view.setAdds), WithoutEmpty(view.setRemoves),
                       view.readValues, view.setReads, view.tid);
    NumbersSoFar(s);
    if !Conflicts(s.log, req) && view.tid <= s.curTransactionNum
       && AlwaysIndexed(t, s.log) && TrueReads(t, view, s.log) {
      CommitStaysIndexed(t, view, s.log, s.curTransactionNum + 1);
    }
    if t.Sound(view) && t.Indexed(view.base) && AlwaysCarried(t, s.log) && WritesFields(t, view) {
      CommitStaysCarried(t, view, s.log, s.curTransactionNum + 1);
    }
    r := s.CompleteTransaction(req, now);
    SameAcceptance(view, Replay(old(s.log)).members);
  }

  lemma SameAcceptance(view: View, members: set<Membership>)
    ensures Accepted(members, RequestOf(view).setAdds, RequestOf(view).setRemoves)
            <==> Accepted(members, view.setAdds, view.setRemoves)
  {
  }

  lemma NumbersSoFar(s: Server)
    requires s.Valid()
    ensures forall x :: x in s.log ==> x.tid < s.curTransactionNum + 1
  {
  }

  /** The view shows what the client's replica holds at the view's version. */
  ghost predicate Shows(view: View, c: DatabaseConnectionState)
    reads view, c, c.objects, c.objects.fieldToVersionedObjects.Values, c.objects.indexToVersionedIdSets.Values
  {
    && (forall k :: Lookup(view.base.fields, k) == c.FieldAt(k, view.tid))
    && (forall i, o :: Membership(i, o) in view.base.members <==> Moment(view.tid, o) in c.objects.MembersOf(i))
  }

  /** The channel has followed the field, or the fields of the index, from a transaction up to `v` on. */
  ghost predicate Followed(t: ObjectType, mirrors: set<Mirror>, channel: ChannelId, f: FieldId, v: TransactionId) {
    exists m :: m in mirrors && m.channel == channel && m.fieldId == f && m.since <= v
                && (f in m.via || (f in t.indices && forall g :: g in t.indices[f] ==> g in m.via))
  }

  /** A view on a client that follows all fields concerned is faithful to the server, whatever was
      committed since the messages the client has applied. */
  lemma ClientViewIsFaithful(s: Server, c: DatabaseConnectionState, channel: ChannelId, undelivered: Log, t: ObjectType,
                             view: View)
    requires s.Valid() && c.Valid() && Shows(view, c) && AlwaysCarried(t, s.log)
    requires channel in s.sent && channel !in s.stale && s.sent[channel] == c.log + undelivered
    requires c.minTransactionId <= view.tid && forall x :: x in undelivered ==> view.tid < x.tid
    requires forall i :: i in t.indices ==> Followed(t, s.mirrors, channel, i, view.tid)
    requires forall i, f :: i in t.indices && f in t.indices[i] ==> Followed(t, s.mirrors, channel, f, view.tid)
    requires forall k :: k in view.readValues ==> Followed(t, s.mirrors, channel, k.fieldId, view.tid)
    ensures Faithful(t, view, s.log)
  {
    hide StateAt, Server.Valid, DatabaseConnectionState.Valid, DatabaseConnectionState.FieldAt, AlwaysCarried, Carried;
    forall f | Followed(t, s.mirrors, channel, f, view.tid)
      ensures SameField(view.base, StateAt(s.log, view.tid), f)
    {
      var m :| m in s.mirrors && m.channel == channel && m.fieldId == f && m.since <= view.tid
               && (f in m.via || (f in t.indices && forall g :: g in t.indices[f] ==> g in m.via));
      if f in m.via {
        CarriedByItself(s.log, f, m.since, m.via);
      } else {
        AlwaysCarriedIsCarried(t, s.log, f, m.since, m.via);
      }
      ClientSnapshotIsServerState(s, c, m, undelivered, view.tid);
      assert forall m: Membership :: m == Membership(m.index, m.objId);
    }
  }
}
