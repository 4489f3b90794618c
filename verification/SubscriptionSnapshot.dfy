/** The data of a type subscription: what the server reads off its store for the objects of the type
    (object_database/server.py), and what the client rebuilds from it (object_database/database_connection.py). */
module SubscriptionSnapshot {
  import opened Common
  import opened Database
  import opened Persistence
  import opened ServerStore

  function KeysOf(objects: set<ObjectId>, fields: set<FieldId>): (s: set<ObjectFieldId>)
    ensures forall k :: k in s <==> k.objId in objects && k.fieldId in fields
  {
    set o, f | o in objects && f in fields :: ObjectFieldId(o, f)
  }

  /** The objects an index value lists. */
  ghost function ListedIn(db: Database, index: IndexId): (s: set<ObjectId>)
    ensures forall o :: o in s <==> Membership(index, o) in db.members
  {
    set m | m in db.members && m.index == index :: m.objId
  }

  /** Transpose the reverse map: from each object's index value to the objects of each value. */
  function IndexValuesToSetAdds(values: map<ObjectFieldId, Option<Bytes>>): (adds: map<IndexId, set<ObjectId>>)
    ensures forall m: Membership :: m in Pairs(adds) <==>
              var k := ObjectFieldId(m.objId, m.index.fieldId);
              k in values && values[k] == Some(m.index.indexValue)
    ensures forall i :: i in adds ==> exists k :: k in values && k.fieldId == i.fieldId
  {
    var used := set k | k in values && values[k].Some? :: IndexId(k.fieldId, values[k].value);
    var adds := map i | i in used ::
      set k | k in values && k.fieldId == i.fieldId && values[k] == Some(i.indexValue) :: k.objId;
    assert forall m: Membership ::
        var k := ObjectFieldId(m.objId, m.index.fieldId);
        k in values && values[k] == Some(m.index.indexValue) ==> m.index in used && k.objId in adds[m.index] by {
      forall m: Membership |
        ObjectFieldId(m.objId, m.index.fieldId) in values
        && values[ObjectFieldId(m.objId, m.index.fieldId)] == Some(m.index.indexValue)
        ensures m.index in used && m.objId in adds[m.index]
      {
        var k := ObjectFieldId(m.objId, m.index.fieldId);
        assert m.index == IndexId(k.fieldId, values[k].value);
      }
    }
    adds
  }

  /** The subscription data, as the pseudo-transaction the client applies when it is complete. */
  function SnapshotOf(data: Data, objects: set<ObjectId>, fields: set<FieldId>, indices: set<FieldId>,
                      tid: TransactionId): Transaction {
    var reverse := map k | k in KeysOf(objects, indices) :: Lookup(data, ReverseIndex(k));
    var writes := map k | k in KeysOf(objects, fields) :: Lookup(data, FieldValue(k));
    Transaction(tid, writes, IndexValuesToSetAdds(reverse), map[])
  }

  /** The data makes up all the difference between what the client has of a field and what the server has:
      outside the data the two agree, the client has no wrong index entry, and every entry is sent or known. */
  ghost predicate Suffices(client: Database, db: Database, f: FieldId, objects: set<ObjectId>, fields: set<FieldId>,
                           indices: set<FieldId>)
  {
    && (forall k: ObjectFieldId :: k.fieldId == f && !(k.objId in objects && f in fields) ==>
          Lookup(client.fields, k) == Lookup(db.fields, k))
    && (forall m :: m in client.members && m.index.fieldId == f ==> m in db.members)
    && (forall m :: m in db.members && m.index.fieldId == f ==>
          m in client.members || (m.objId in objects && f in indices))
  }

  /** What is committed of some objects, for some fields and indices. */
  ghost predicate IsDataFor(t: Transaction, db: Database, objects: set<ObjectId>, fields: set<FieldId>,
                            indices: set<FieldId>, tid: TransactionId)
  {
    && t.tid == tid && t.setRemoves == map[]
    && (forall k :: k in t.writes <==> k.objId in objects && k.fieldId in fields)
    && (forall k :: k in t.writes ==> t.writes[k] == Lookup(db.fields, k))
    && (forall m :: m in Pairs(t.setAdds) <==> m in db.members && m.objId in objects && m.index.fieldId in indices)
  }

  /** Read off the store, it is what is committed. */
  lemma SnapshotIsData(data: Data, db: Database, objects: set<ObjectId>, fields: set<FieldId>, indices: set<FieldId>,
                       tid: TransactionId)
    requires FieldsHeld(data, db) && ReverseHeld(data, db)
    ensures IsDataFor(SnapshotOf(data, objects, fields, indices, tid), db, objects, fields, indices, tid)
  {
  }

  lemma DataApplied(t: Transaction, db: Database, objects: set<ObjectId>, fields: set<FieldId>, indices: set<FieldId>,
                    tid: TransactionId, client: Database)
    requires IsDataFor(t, db, objects, fields, indices, tid)
    ensures var after := Apply(client, t);
            && (forall k :: Lookup(after.fields, k)
                            == if k.objId in objects && k.fieldId in fields then Lookup(db.fields, k)
                               else Lookup(client.fields, k))
            && (forall m :: m in after.members
                            <==> m in client.members
                                 || (m in db.members && m.objId in objects && m.index.fieldId in indices))
  {
  }

  /** After the subscription the client mirrors a field exactly if the data made up all the difference. Two
      things can be in the way. Earlier messages carry whole transactions, including writes to types not
      subscribed to yet, whose later deletion was not sent. And the server may hold a field of an object that
      is not listed, which is not sent either. */
  lemma DataMirrors(t: Transaction, log: Log, c: Log, objects: set<ObjectId>, fields: set<FieldId>,
                    indices: set<FieldId>, tid: TransactionId, f: FieldId)
    requires IsDataFor(t, Replay(log), objects, fields, indices, tid)
    requires (forall x :: x in log ==> x.tid <= tid) && (forall x :: x in c ==> x.tid <= tid)
    ensures Mirrors(c + [t], log, f, tid) <==> Suffices(Replay(c), Replay(log), f, objects, fields, indices)
  {
    hide Apply, Replay, StateAt;
    var after := Apply(Replay(c), t);
    DataApplied(t, Replay(log), objects, fields, indices, tid, Replay(c));
    forall v | tid <= v
      ensures StateAt(c + [t], v) == after && StateAt(log, v) == Replay(log)
    {
      StateAtEnd(c, v);
      StateAtEnd(log, v);
      StateAtAppend(c, t, v);
    }
    assert Mirrors(c + [t], log, f, tid) <==> SameField(after, Replay(log), f) by {
      assert Mirrors(c + [t], log, f, tid) ==> SameField(StateAt(c + [t], tid), StateAt(log, tid), f);
    }
    SameAfter(Replay(c), after, Replay(log), f, objects, fields, indices);
  }

  lemma SnapshotMirrors(data: Data, log: Log, c: Log, objects: set<ObjectId>, fields: set<FieldId>,
                        indices: set<FieldId>, tid: TransactionId, f: FieldId)
    requires FieldsHeld(data, Replay(log)) && ReverseHeld(data, Replay(log))
    requires (forall t :: t in log ==> t.tid <= tid) && (forall t :: t in c ==> t.tid <= tid)
    ensures Mirrors(c + [SnapshotOf(data, objects, fields, indices, tid)], log, f, tid)
            <==> Suffices(Replay(c), Replay(log), f, objects, fields, indices)
  {
    hide *;
    SnapshotIsData(data, Replay(log), objects, fields, indices, tid);
    DataMirrors(SnapshotOf(data, objects, fields, indices, tid), log, c, objects, fields, indices, tid, f);
  }

  lemma SameAfter(client: Database, after: Database, db: Database, f: FieldId, objects: set<ObjectId>,
                  fields: set<FieldId>, indices: set<FieldId>)
    requires forall k :: Lookup(after.fields, k)
                         == if k.objId in objects && k.fieldId in fields then Lookup(db.fields, k)
                            else Lookup(client.fields, k)
    requires forall m :: m in after.members
                         <==> m in client.members
                              || (m in db.members && m.objId in objects && m.index.fieldId in indices)
    ensures SameField(after, db, f) <==> Suffices(client, db, f, objects, fields, indices)
  {
    if SameField(after, db, f) {
      forall k: ObjectFieldId | k.fieldId == f && !(k.objId in objects && f in fields)
        ensures Lookup(client.fields, k) == Lookup(db.fields, k)
      {
        assert Lookup(after.fields, k) == Lookup(db.fields, k);
      }
    }
  }

  lemma SnapshotTid(data: Data, objects: set<ObjectId>, fields: set<FieldId>, indices: set<FieldId>, tid: TransactionId)
    ensures SnapshotOf(data, objects, fields, indices, tid).tid == tid
  {
  }

  /** Subscription data never disturbs a field already mirrored. */
  lemma SnapshotKeepsMirrors(data: Data, log: Log, c: Log, objects: set<ObjectId>, fields: set<FieldId>,
                             indices: set<FieldId>, tid: TransactionId, f: FieldId, since: TransactionId)
    requires FieldsHeld(data, Replay(log)) && ReverseHeld(data, Replay(log))
    requires (forall t :: t in log ==> t.tid <= tid) && Mirrors(c, log, f, since)
    ensures Mirrors(c + [SnapshotOf(data, objects, fields, indices, tid)], log, f, since)
  {
    hide SnapshotOf, FieldsHeld, ReverseHeld, Apply, Replay, StateAt;
    var snap := SnapshotOf(data, objects, fields, indices, tid);
    assert snap.tid == tid by { SnapshotTid(data, objects, fields, indices, tid); }
    forall v | since <= v
      ensures SameField(StateAt(c + [snap], v), StateAt(log, v), f)
    {
      assert SameField(StateAt(c, v), StateAt(log, v), f);
      StateAtAppend(c, snap, v);
      if tid <= v {
        StateAtEnd(log, v);
        SnapshotIsData(data, Replay(log), objects, fields, indices, tid);
        DataApplied(snap, Replay(log), objects, fields, indices, tid, StateAt(c, v));
      }
    }
  }

  /** Nor does it disturb an object the client has right. */
  lemma DataKeepsObject(t: Transaction, log: Log, c: Log, objects: set<ObjectId>, fields: set<FieldId>,
                        indices: set<FieldId>, tid: TransactionId, o: ObjectId, since: TransactionId)
    requires IsDataFor(t, Replay(log), objects, fields, indices, tid)
    requires (forall x :: x in log ==> x.tid <= tid) && MirrorsObject(c, log, o, since)
    ensures MirrorsObject(c + [t], log, o, since)
  {
    hide Apply, Replay, StateAt;
    forall v | since <= v
      ensures SameObject(StateAt(c + [t], v), StateAt(log, v), o)
    {
      assert SameObject(StateAt(c, v), StateAt(log, v), o);
      StateAtAppend(c, t, v);
      if tid <= v {
        StateAtEnd(log, v);
        DataApplied(t, Replay(log), objects, fields, indices, tid, StateAt(c, v));
      }
    }
  }

  /** The data makes up all the difference between what the client has of an object and what the server has. */
  ghost predicate SufficesForObject(client: Database, db: Database, o: ObjectId, fields: set<FieldId>,
                                    indices: set<FieldId>)
  {
    && (forall k: ObjectFieldId :: k.objId == o && k.fieldId !in fields ==>
          Lookup(client.fields, k) == Lookup(db.fields, k))
    && (forall m :: m in client.members && m.objId == o ==> m in db.members)
    && (forall m :: m in db.members && m.objId == o ==> m in client.members || m.index.fieldId in indices)
  }

  /** The client has an object right after it was sent its data exactly if that made up all the difference. */
  lemma DataGivesObject(t: Transaction, db: Database, client: Database, objects: set<ObjectId>, fields: set<FieldId>,
                        indices: set<FieldId>, tid: TransactionId, o: ObjectId)
    requires IsDataFor(t, db, objects, fields, indices, tid) && o in objects
    ensures SameObject(Apply(client, t), db, o) <==> SufficesForObject(client, db, o, fields, indices)
  {
    hide Apply;
    DataApplied(t, db, objects, fields, indices, tid, client);
    hide IsDataFor;
    var after := Apply(client, t);
    if SameObject(after, db, o) {
      forall k: ObjectFieldId | k.objId == o && k.fieldId !in fields
        ensures Lookup(client.fields, k) == Lookup(db.fields, k)
      {
        assert Lookup(after.fields, k) == Lookup(db.fields, k);
      }
    }
  }

  /** Leftovers are real: a channel following field 1 only is sent the creation of object 7, having field 1, and
      of object 8, having field 2, but not the deletion of object 8; subscribing to field 2 then does not
      mirror it. */
  lemma GhostObjectAfterSubscription()
    ensures var k1, k2 := ObjectFieldId(7, 1), ObjectFieldId(8, 2);
            var created := Transaction(1, map[k1 := Some([]), k2 := Some([])], map[], map[]);
            var deleted := Transaction(2, map[k2 := None], map[], map[]);
            var log, sent := [created, deleted], [created];
            var snap := SnapshotOf(map[FieldValue(k1) := []], {}, {2}, {}, 2);
            && Mirrors(sent, log, 1, 0) && 1 !in TouchedFields(deleted)
            && FieldsHeld(map[FieldValue(k1) := []], Replay(log))
            && !Mirrors(sent + [snap], log, 2, 2)
  {
    var k1, k2 := ObjectFieldId(7, 1), ObjectFieldId(8, 2);
    var created := Transaction(1, map[k1 := Some([]), k2 := Some([])], map[], map[]);
    var deleted := Transaction(2, map[k2 := None], map[], map[]);
    var log, sent := [created, deleted], [created];
    var data: Data := map[FieldValue(k1) := []];
    assert Mirrors([], [], 1, 0);
    MirrorsStep([], [], 1, 0, created, true);
    MirrorsStep([created], [created], 1, 0, deleted, false);
    assert [] + [created] == [created] && [created] + [deleted] == log;
    ReplayAppend([], created);
    ReplayAppend([created], deleted);
    assert Replay([created]) == Apply(EMPTY, created);
    assert Replay(log) == Apply(Apply(EMPTY, created), deleted);
    assert ReverseHeld(data, Replay(log));
    SnapshotMirrors(data, log, sent, {}, {2}, {}, 2, 2);
    assert Lookup(Replay(sent).fields, k2) != Lookup(Replay(log).fields, k2);
  }

  /** So is data never sent: the only write is to a field of object 7, which no index lists, and a client
      that knows nothing and is sent the data of the listed objects does not mirror the field. */
  lemma UnlistedFieldIsNotSent()
    ensures var k := ObjectFieldId(7, 2);
            var log := [Transaction(1, map[k := Some([])], map[], map[])];
            var data: Data := map[FieldValue(k) := []];
            && FieldsHeld(data, Replay(log)) && ReverseHeld(data, Replay(log)) && Replay(log).members == {}
            && !Mirrors([SnapshotOf(data, {}, {2}, {}, 1)], log, 2, 1)
  {
    var k := ObjectFieldId(7, 2);
    var written := Transaction(1, map[k := Some([])], map[], map[]);
    var data: Data := map[FieldValue(k) := []];
    ReplayAppend([], written);
    assert [] + [written] == [written] && Replay([written]) == Apply(EMPTY, written);
    SnapshotMirrors(data, [written], [], {}, {2}, {}, 1, 2);
    assert Lookup(Replay([]).fields, k) != Lookup(Replay([written]).fields, k);
    assert [] + [SnapshotOf(data, {}, {2}, {}, 1)] == [SnapshotOf(data, {}, {2}, {}, 1)];
  }
}
