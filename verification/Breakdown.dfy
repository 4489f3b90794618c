/** A run that ends with a broken server. The client of object_database/database_connection.py may hold an object
    that is long deleted; assigning one of its fields through object_database/PyDatabaseObjectType.cpp sends an index
    change that contradicts what object_database/server.py has stored. */
module Breakdowns {
  import opened Common
  import opened OrderedSets
  import opened Database
  import opened VersionedIdSets
  import opened Replica
  import opened Persistence
  import opened ServerStore
  import opened SubscriptionSnapshot
  import opened CommitProtocol
  import opened Views
  import opened DatabaseObjectTypes
  import opened Replication
  import opened Commits

  /** One index, over field 2, filed under the field's own value. */
  function Type(): ObjectType {
    ObjectType(map[2 := [2]], (values: seq<Bytes>) => if |values| == 1 then values[0] else [])
  }

  lemma IndexedBySelf(db: Database)
    ensures Type().Indexed(db) <==>
            forall m: Membership :: m.index.fieldId == 2 ==>
              (m in db.members <==> Lookup(db.fields, ObjectFieldId(m.objId, 2)) == Some(m.index.indexValue))
  {
    forall o
      ensures Type().IndexValueOf(db.fields, [2], o) == Lookup(db.fields, ObjectFieldId(o, 2))
    {
      var k := ObjectFieldId(o, 2);
      if k in db.fields {
        Type().ValueFrom(db.fields, [2], o, [db.fields[k]]);
      } else {
        assert [2][0] in [2];
      }
    }
    if Type().Indexed(db) {
      forall m: Membership | m.index.fieldId == 2
        ensures m in db.members <==> Lookup(db.fields, ObjectFieldId(m.objId, 2)) == Some(m.index.indexValue)
      {
        assert Type().IndexedAt(db, 2, m.objId) && m == Membership(IndexId(2, m.index.indexValue), m.objId);
      }
    }
  }

  const CREATED: Database :=
    Database(map[ObjectFieldId(7, 1) := [], ObjectFieldId(8, 2) := [1]], {Membership(IndexId(2, [1]), 8)})

  method NewView(base: Database, tid: TransactionId) returns (view: View)
    requires Type().Indexed(base) && ProperIds(base.members)
    ensures fresh(view) && Type().Sound(view) && view.base == base && view.tid == tid && view.allowWrites
    ensures view.Current() == base && view.Cached() == {} && view.deleteCache == {}
  {
    hide ObjectType.Indexed;
    view := new View(base, tid, true);
    Type().FreshViewIsSound(view);
  }

  /** Another client creates object 7 with field 1 and object 8 with field 2. */
  method CreateBoth() returns (view: View)
    ensures fresh(view) && Type().Sound(view) && view.base == EMPTY && view.tid == 0
    ensures view.Current() == CREATED && view.Cached() <= {ObjectFieldId(7, 1), ObjectFieldId(8, 2)}
  {
    hide ObjectType.Indexed, ObjectType.Sound, View.CurrentFields, View.CurrentMembers, View.Valid, View.Cached;
    hide Updated;
    IndexedBySelf(EMPTY);
    view := NewView(EMPTY, 0);
    var r := Type().SetFieldValue(view, 1, 7, Some([]));
    r := Type().SetFieldValue(view, 2, 8, Some([1]));
    CreatedIsShown(view);
  }

  lemma CreatedIsShown(view: View)
    requires Type().Sound(view) && view.base == EMPTY
    requires view.CurrentFields()
             == Updated(Updated(EMPTY.fields, map[ObjectFieldId(7, 1) := Some([])]),
                        map[ObjectFieldId(8, 2) := Some([1])])
    ensures view.Current() == CREATED
  {
    hide ObjectType.Indexed, ObjectType.Recorded, View.CurrentFields, View.FieldCachesValid;
    IndexedBySelf(view.Current());
    assert forall m :: m in view.CurrentMembers() ==> m.index.fieldId == 2;
    OnlyCreated(view.Current());
  }

  lemma OnlyCreated(db: Database)
    requires forall k :: Lookup(db.fields, k) == Lookup(CREATED.fields, k)
    requires forall m :: m in db.members <==>
               m.index.fieldId == 2 && Lookup(db.fields, ObjectFieldId(m.objId, 2)) == Some(m.index.indexValue)
    ensures db == CREATED
  {
    assert forall k :: k in db.fields <==> Lookup(db.fields, k).Some?;
  }

  /** Later it assigns field 2 of object 8, or deletes it. */
  method AssignEight(tid: TransactionId, value: Option<Bytes>) returns (view: View)
    ensures fresh(view) && Type().Sound(view) && view.base == CREATED && view.tid == tid
    ensures view.CurrentFields() == Updated(CREATED.fields, map[ObjectFieldId(8, 2) := value])
    ensures Type().Indexed(view.base) && Type().Indexed(view.Current())
    ensures view.Cached() <= {ObjectFieldId(8, 2)} && forall m :: m in Views.Changed(view) ==> m.index.fieldId == 2
  {
    hide ObjectType.Indexed, ObjectType.Recorded, View.CurrentFields, View.CurrentMembers, View.Cached, Updated;
    hide View.FieldCachesValid, View.IndexCachesValid;
    IndexedBySelf(CREATED);
    view := NewView(CREATED, tid);
    var r := Type().SetFieldValue(view, 2, 8, value);
    SoundChanges(view);
  }

  lemma SoundChanges(view: View)
    requires Type().Sound(view)
    ensures view.Valid() && Type().Indexed(view.Current())
    ensures forall m :: m in Views.Changed(view) ==> m.index.fieldId == 2
  {
    hide ObjectType.Indexed, ObjectType.Recorded;
  }

  /** The first commit, of which those who follow field 1 are sent all. */
  method CommitCreation(s: Server) returns (ghost created: Transaction)
    requires s.Valid() && s.log == [] && s.curTransactionNum == 0 && s.minAcceptableVersionNumber < 0
    requires 0 in s.sent && s.fieldIdToChannel == map[1 := {0}] && s.idToChannel == map[]
    modifies s`curTransactionNum, s`versionNumbers, s`versionNumbersTimestamps, s`sent
    modifies s`pendingSubscriptionRecheck, s`log, s`readSets, s.store
    ensures s.Valid() && AlwaysIndexed(Type(), s.log) && s.curTransactionNum == 1 && s.log == [created]
    ensures created.tid == 1 && Apply(EMPTY, created) == CREATED
    ensures s.sent.Keys == old(s.sent).Keys && s.sent[0] == old(s.sent)[0] + [created]
  {
    hide Server.Valid, Replay, StateAt, TransactionOf, RequestOf, Conflicts, TrueReads, AlwaysIndexed, AlwaysCarried;
    hide Server.CanHandle, FieldsHeld, Apply, Accepted, WritesFields, CommitProtocol.Follows, ObjectType.Sound;
    hide ObjectType.Indexed;
    var view := CreateBoth();
    created := TransactionOf(RequestOf(view), 1);
    CreationIsCommitted(view, created);
    SoundChanges(view);
    var r := Commit(s, Type(), view, 0);
    assert s.log == [created];
  }

  /** The second commit, of which they are sent nothing. */
  method CommitDeletion(s: Server, ghost created: Transaction)
    requires s.Valid() && AlwaysIndexed(Type(), s.log) && s.curTransactionNum == 1 && s.log == [created]
    requires created.tid == 1 && Apply(EMPTY, created) == CREATED
    requires s.minAcceptableVersionNumber < 0
    requires 0 in s.sent && s.fieldIdToChannel == map[1 := {0}] && s.idToChannel == map[]
    modifies s`curTransactionNum, s`versionNumbers, s`versionNumbersTimestamps, s`sent
    modifies s`pendingSubscriptionRecheck, s`log, s`readSets, s.store
    ensures s.Valid() && AlwaysIndexed(Type(), s.log) && s.curTransactionNum == 2
    ensures Replay(s.log).members == {} && Lookup(Replay(s.log).fields, ObjectFieldId(8, 2)) == None
    ensures s.sent.Keys == old(s.sent).Keys && s.sent[0] == old(s.sent)[0]
  {
    hide Server.Valid, Replay, StateAt, TransactionOf, RequestOf, Conflicts, TrueReads, AlwaysIndexed, AlwaysCarried;
    hide Server.CanHandle, FieldsHeld, Apply, Accepted, WritesFields, CommitProtocol.Follows, ObjectType.Sound;
    hide ObjectType.Indexed;
    var view := AssignEight(1, None);
    ghost var deleted := TransactionOf(RequestOf(view), 2);
    DeletionIsCommitted(view, created);
    DeletionLeavesNothing(view, created, deleted);
    DeletionIsNotFollowed(view, deleted);
    SoundChanges(view);
    var r := Commit(s, Type(), view, 0);
    assert s.log == [created, deleted];
  }

  lemma CreationIsCommitted(view: View, created: Transaction)
    requires Type().Sound(view) && view.base == EMPTY && view.tid == 0 && view.Current() == CREATED
    requires created == TransactionOf(RequestOf(view), 1)
    ensures AlwaysIndexed(Type(), []) && TrueReads(Type(), view, []) && !Conflicts([], RequestOf(view))
    ensures Apply(EMPTY, created) == CREATED && created.tid == 1
    ensures CommitProtocol.Follows(map[1 := {0}], map[], 0, created)
  {
    SoundChanges(view);
    hide ObjectType.Indexed, ObjectType.Sound, View.Valid, View.Current, View.Cached, TransactionOf, RequestOf;
    IndexedBySelf(EMPTY);
    TransactionGivesCurrent(view, 1);
    assert Lookup(Apply(EMPTY, created).fields, ObjectFieldId(7, 1)) == Some([]);
    assert ObjectFieldId(7, 1) in created.writes && 1 in TouchedFields(created);
    assert 1 in map[1 := {0}] && 0 in {0};
  }

  lemma DeletionIsCommitted(view: View, created: Transaction)
    requires Type().Sound(view) && view.base == CREATED && view.tid == 1
    requires created.tid == 1 && Apply(EMPTY, created) == CREATED
    ensures TrueReads(Type(), view, [created]) && !Conflicts([created], RequestOf(view))
  {
    hide ObjectType.Sound, ObjectType.Indexed, Apply;
    IndexedBySelf(CREATED);
    StateAtAppend([], created, 1);
    assert [] + [created] == [created];
  }

  lemma DeletionLeavesNothing(view: View, created: Transaction, deleted: Transaction)
    requires Type().Sound(view) && view.base == CREATED && Apply(EMPTY, created) == CREATED
    requires view.CurrentFields() == Updated(CREATED.fields, map[ObjectFieldId(8, 2) := None])
    requires deleted == TransactionOf(RequestOf(view), 2)
    ensures Replay([created, deleted]).members == {}
    ensures Lookup(Replay([created, deleted]).fields, ObjectFieldId(8, 2)) == None
  {
    NothingShown(view);
    assert view.Valid() by {
      SoundChanges(view);
    }
    hide ObjectType.Sound, View.CurrentFields, View.CurrentMembers, View.Valid, Apply, RequestOf, TransactionOf;
    hide Updated;
    TransactionGivesCurrent(view, 2);
    ReplayAppend([], created);
    ReplayAppend([created], deleted);
    assert [] + [created] == [created] && [created] + [deleted] == [created, deleted];
  }

  lemma NothingShown(view: View)
    requires Type().Sound(view) && view.base == CREATED
    requires view.CurrentFields() == Updated(CREATED.fields, map[ObjectFieldId(8, 2) := None])
    ensures view.CurrentMembers() == {} && Lookup(view.CurrentFields(), ObjectFieldId(8, 2)) == None
  {
    SoundChanges(view);
    assert forall m :: m in view.CurrentMembers() ==> m.index.fieldId == 2;
    assert forall k :: Lookup(view.CurrentFields(), k)
                       == if k == ObjectFieldId(8, 2) then None else Lookup(CREATED.fields, k);
    hide ObjectType.Sound, ObjectType.Indexed, View.CurrentFields, View.CurrentMembers, View.Valid, Updated;
    IndexedBySelf(view.Current());
    assert forall o :: Lookup(view.CurrentFields(), ObjectFieldId(o, 2)) == None;
    assert forall m :: m !in view.CurrentMembers();
  }

  lemma DeletionIsNotFollowed(view: View, deleted: Transaction)
    requires view.Cached() <= {ObjectFieldId(8, 2)} && forall m :: m in Views.Changed(view) ==> m.index.fieldId == 2
    requires deleted == TransactionOf(RequestOf(view), 2)
    ensures !CommitProtocol.Follows(map[1 := {0}], map[], 0, deleted)
  {
    assert deleted.writes.Keys == view.Cached();
    assert deleted.setAdds == WithoutEmpty(WithoutEmpty(view.setAdds));
    assert deleted.setRemoves == WithoutEmpty(WithoutEmpty(view.setRemoves));
    forall i | ListsIndex(deleted, i)
      ensures i.fieldId == 2
    {
      var o := AnElement(if i in deleted.setAdds then deleted.setAdds[i] else deleted.setRemoves[i]);
      assert Membership(i, o) in Views.Changed(view);
    }
  }

  lemma TransactionGivesCurrent(view: View, tid: TransactionId)
    requires view.Valid()
    ensures Apply(view.base, TransactionOf(RequestOf(view), tid)) == view.Current()
    ensures TransactionOf(RequestOf(view), tid).tid == tid
            && TransactionOf(RequestOf(view), tid).writes.Keys == view.Cached()
  {
    var tx := TransactionOf(RequestOf(view), tid);
    assert Pairs(tx.setAdds) == Pairs(view.setAdds) && Pairs(tx.setRemoves) == Pairs(view.setRemoves);
    view.ExtractedIsCurrent(tid);
  }

  /** Serve a type that has no objects: whoever applies the data learns nothing. */
  method SubscribeToNone(s: Server, f: FieldId, indices: set<FieldId>, existence: IndexId)
    returns (ghost data: Transaction)
    requires s.Valid() && 0 in s.sent && forall m :: m in Replay(s.log).members ==> m.index != existence
    modifies s`sent, s`fieldIdToChannel, s`mirrors, s`stale
    ensures s.Valid() && s.stale == old(s.stale) && s.sent == old(s.sent)[0 := old(s.sent)[0] + [data]]
    ensures s.fieldIdToChannel == WithSubscriber(old(s.fieldIdToChannel), 0, {f})
    ensures data.tid == s.curTransactionNum && forall db :: Apply(db, data) == db
  {
    hide Server.Valid, Replay, Suffices, Mirrors, NewMirrors, WithSubscriber, SnapshotOf;
    data := SnapshotOf(s.store.data, {}, {f}, indices, s.curTransactionNum);
    NothingListed(s, existence);
    NoData(s, {f}, indices);
    s.HandleSubscriptionInForeground(0, {f}, indices, existence);
  }

  lemma NothingListed(s: Server, existence: IndexId)
    requires s.Valid() && forall m :: m in Replay(s.log).members ==> m.index != existence
    ensures Existing(s.store.sets, existence) == {}
  {
    hide Replay, Tracks, Serializable, ChannelsInOrder;
    assert IndicesHeld(s.store.sets, Replay(s.log));
    forall o
      ensures o !in Existing(s.store.sets, existence)
    {
      assert Membership(existence, o) !in Replay(s.log).members;
    }
  }

  lemma NoData(s: Server, fields: set<FieldId>, indices: set<FieldId>)
    requires s.Valid()
    ensures var data := SnapshotOf(s.store.data, {}, fields, indices, s.curTransactionNum);
            data.tid == s.curTransactionNum && forall db :: Apply(db, data) == db
  {
    hide Replay, Tracks, Serializable, ChannelsInOrder, SnapshotOf;
    var data := SnapshotOf(s.store.data, {}, fields, indices, s.curTransactionNum);
    assert FieldsHeld(s.store.data, Replay(s.log)) && ReverseHeld(s.store.data, Replay(s.log));
    SnapshotIsData(s.store.data, Replay(s.log), {}, fields, indices, s.curTransactionNum);
    forall db
      ensures Apply(db, data) == db
    {
      assert forall k :: Lookup(Apply(db, data).fields, k) == Lookup(db.fields, k);
      SameLookups(Apply(db, data).fields, db.fields);
    }
  }

  /** A channel that follows field 1, misses the deletion of object 8, and then subscribes to field 2. */
  method LeaveGhost() returns (s: Server)
    ensures fresh(s) && fresh(s.store) && s.Valid() && AlwaysIndexed(Type(), s.log)
    ensures s.curTransactionNum == 2 && s.minAcceptableVersionNumber < 0 && s.sent.Keys == {0} && s.stale == {}
    ensures Replay(s.log).members == {} && Lookup(Replay(s.log).fields, ObjectFieldId(8, 2)) == None
    ensures Replay(s.sent[0]) == CREATED && forall t :: t in s.sent[0] ==> t.tid <= 2
  {
    hide Server.Valid, Replay, Apply, AlwaysIndexed;
    ghost var d0;
    s, d0 := FollowFieldOne();
    ghost var created := CommitCreation(s);
    CommitDeletion(s, created);
    ghost var d2 := SubscribeToNone(s, 2, {2}, IndexId(2, [1]));
    assert s.sent[0] == [d0, created, d2];
    ThreeMessages(d0, created, d2);
  }

  method FollowFieldOne() returns (s: Server, ghost d0: Transaction)
    ensures fresh(s) && fresh(s.store) && s.Valid() && s.log == [] && s.curTransactionNum == 0
    ensures s.minAcceptableVersionNumber < 0 && s.stale == {} && s.sent == map[0 := [d0]]
    ensures s.fieldIdToChannel == map[1 := {0}] && s.idToChannel == map[]
    ensures d0.tid == 0 && forall db :: Apply(db, d0) == db
  {
    hide Server.Valid, Apply;
    s := new Server();
    s.OpenChannel(0);
    NothingCommitted(s);
    FirstFollower(s.fieldIdToChannel);
    d0 := SubscribeToNone(s, 1, {}, IndexId(1, []));
    assert [] + [d0] == [d0];
  }

  lemma FirstFollower(none: FieldSubscribers)
    requires none == map[]
    ensures WithSubscriber(none, 0, {1}) == map[1 := {0}]
  {
    assert WithSubscriber(none, 0, {1}).Keys == {1} && WithSubscriber(none, 0, {1})[1] == {0};
  }

  lemma NothingCommitted(s: Server)
    requires |s.log| == 0
    ensures Replay(s.log).members == {}
  {
  }

  lemma ThreeMessages(d0: Transaction, created: Transaction, d2: Transaction)
    requires Apply(EMPTY, created) == CREATED
    requires (forall db :: Apply(db, d0) == db) && forall db :: Apply(db, d2) == db
    ensures Replay([d0, created, d2]) == CREATED
  {
    hide Apply;
    ReplayAppend([], d0);
    ReplayAppend([d0], created);
    ReplayAppend([d0, created], d2);
    assert [] + [d0] == [d0] && [d0] + [created] == [d0, created] && [d0, created] + [d2] == [d0, created, d2];
  }

  lemma ViewOfGhost(c: DatabaseConnectionState, view: View)
    requires c.Valid() && Replay(c.log) == CREATED && forall t :: t in c.log ==> t.tid <= 2
    requires view.base == CREATED && view.tid == 2
    ensures Shows(view, c)
  {
    hide StateAt, Replay, DatabaseConnectionState.FieldAt;
    assert c.log != [] ==> c.log[|c.log| - 1] in c.log;
    StateAtEnd(c.log, 2);
    SnapshotIsLogged(c, 2);
  }

  lemma GhostEntryIsMoved(s: Server, view: View)
    requires s.Valid() && s.curTransactionNum == 2 && Replay(s.log).members == {}
    requires Type().Sound(view) && view.base == CREATED && view.tid == 2
    requires view.CurrentFields() == Updated(CREATED.fields, map[ObjectFieldId(8, 2) := Some([3])])
    ensures !s.CanHandle(RequestOf(view)) && !Conflicts(s.log, RequestOf(view))
    ensures !Accepted(Replay(s.log).members, view.setAdds, view.setRemoves)
  {
    NumbersSoFar(s);
    assert !Conflicts(s.log, RequestOf(view));
    SoundChanges(view);
    hide ObjectType.Indexed, ObjectType.Sound, View.CurrentFields, Replay, Conflicts, Server.Valid;
    hide View.FieldCachesValid;
    IndexedBySelf(view.Current());
    var m := Membership(IndexId(2, [1]), 8);
    assert m in view.base.members && m !in view.CurrentMembers();
    assert m in Pairs(view.setRemoves) && m !in Replay(s.log).members;
    assert Pairs(RequestOf(view).setRemoves) == Pairs(view.setRemoves);
  }

  lemma AssignedIsWritten(view: View, db: Database, tid: TransactionId)
    requires view.Valid() && view.base == CREATED
    requires view.CurrentFields() == Updated(CREATED.fields, map[ObjectFieldId(8, 2) := Some([3])])
    ensures Lookup(Apply(db, TransactionOf(RequestOf(view), tid)).fields, ObjectFieldId(8, 2)) == Some([3])
  {
    var k := ObjectFieldId(8, 2);
    assert Lookup(view.CurrentFields(), k) == Some([3]) && Lookup(view.base.fields, k) == Some([1]);
    assert TransactionOf(RequestOf(view), tid).writes == view.ExtractWrites();
  }

  /** Its client applies all it was sent, sees object 8, assigns its field 2, and commits. Nothing speaks against it,
      but the server has no entry to remove. It is left with a value that was never committed, nor sent to
      anyone. */
  method GhostClientBreaksServer() returns (s: Server, c: DatabaseConnectionState, view: View)
    ensures c.Valid() && 0 in s.sent && c.log == s.sent[0] && Type().Sound(view) && Shows(view, c)
    ensures view.tid == 2 && s.minAcceptableVersionNumber <= view.tid && !Conflicts(s.log, RequestOf(view))
    ensures !s.Valid() && Lookup(Replay(s.log).fields, ObjectFieldId(8, 2)) == None
    ensures Lookup(s.store.data, FieldValue(ObjectFieldId(8, 2))) == Some([3])
  {
    hide Server.Valid, DatabaseConnectionState.Valid, Replay, StateAt, Apply, AlwaysIndexed, RequestOf, TransactionOf;
    hide Conflicts, AlwaysCarried, WritesFields, TrueReads, SentAfter, ObjectType.Sound, Server.CanHandle;
    hide ObjectType.Indexed, Shows, DatabaseConnectionState.FieldAt, Relied;
    s := LeaveGhost();
    c := new DatabaseConnectionState();
    CatchUp(s, c, 0, 0);
    view := AssignEight(2, Some([3]));
    ViewOfGhost(c, view);
    CommitOnGhost(s, view);
  }

  method CommitOnGhost(s: Server, view: View)
    requires s.Valid() && s.curTransactionNum == 2 && s.minAcceptableVersionNumber < 0 && Replay(s.log).members == {}
    requires Type().Sound(view) && view.base == CREATED && view.tid == 2
    requires view.CurrentFields() == Updated(CREATED.fields, map[ObjectFieldId(8, 2) := Some([3])])
    modifies s`curTransactionNum, s`versionNumbers, s`versionNumbersTimestamps, s`sent
    modifies s`pendingSubscriptionRecheck, s`log, s`readSets, s.store
    ensures s.log == old(s.log) && s.sent == old(s.sent) && !Conflicts(s.log, RequestOf(view)) && !s.Valid()
    ensures Lookup(s.store.data, FieldValue(ObjectFieldId(8, 2))) == Some([3])
  {
    hide Server.Valid, Replay, StateAt, Apply, AlwaysIndexed, RequestOf, TransactionOf, Accepted;
    hide Conflicts, AlwaysCarried, WritesFields, TrueReads, SentAfter, ObjectType.Sound, Server.CanHandle;
    hide ObjectType.Indexed;
    GhostEntryIsMoved(s, view);
    SoundChanges(view);
    AssignedIsWritten(view, Replay(s.log), 3);
    var r := Commit(s, Type(), view, 0);
  }
}
