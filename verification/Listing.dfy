/** Subscriptions send the data of the objects that a type's existence index lists (object_database/server.py).
    What else is stored under the type's fields is never sent, and nothing in object_database/server.py or
    object_database/PyDatabaseObjectType.cpp prevents it: assigning a field checks and records no existence. Here
    is what keeps everything listed, and what subscribers miss otherwise. */
module Listings {
  import opened Common
  import opened OrderedSets
  import opened Database
  import opened Persistence
  import opened ServerStore
  import opened SubscriptionSnapshot
  import opened CommitProtocol
  import opened Views
  import opened DatabaseObjectTypes
  import opened Commits

  /** The fields and indices of a type, and the index value that lists its objects. */
  datatype TypeDef = TypeDef(fields: set<FieldId>, indices: set<FieldId>, existence: IndexId) {

    ghost predicate Lists(db: Database, o: ObjectId) {
      Membership(existence, o) in db.members
    }

    /** Values and index entries of the type are those of listed objects, and where they belong. */
    ghost predicate AllListed(db: Database) {
      && (forall k :: k in db.fields && k.fieldId in fields + indices ==> k.fieldId in fields && Lists(db, k.objId))
      && (forall m :: m in db.members && m.index.fieldId in fields + indices ==>
            m.index.fieldId in indices && Lists(db, m.objId))
    }

    /** The client holds nothing under the field but values of listed objects and true index entries. */
    ghost predicate NoLeftovers(client: Database, db: Database, f: FieldId) {
      && (forall k :: k in client.fields && k.fieldId == f ==> f in fields && Lists(db, k.objId))
      && (forall m :: m in client.members && m.index.fieldId == f ==> m in db.members)
    }

    /** If everything is listed, the subscription makes up all the difference exactly if the client has no
        leftovers. */
    lemma ListedSuffices(client: Database, db: Database, f: FieldId)
      requires AllListed(db) && f in fields + indices
      ensures Suffices(client, db, f, ListedIn(db, existence), fields, indices) <==> NoLeftovers(client, db, f)
    {
      assert forall o :: o in ListedIn(db, existence) <==> Lists(db, o);
      if Suffices(client, db, f, ListedIn(db, existence), fields, indices) {
        forall k | k in client.fields && k.fieldId == f
          ensures f in fields && Lists(db, k.objId)
        {
          assert !(k.objId in ListedIn(db, existence) && f in fields) ==>
                   Lookup(client.fields, k) == Lookup(db.fields, k);
        }
      }
    }

    /** So it does if also objects are sent that are not listed any more. */
    lemma ListedAndMoreSuffices(client: Database, db: Database, f: FieldId, objects: set<ObjectId>)
      requires AllListed(db) && f in fields + indices && NoLeftovers(client, db, f)
               && ListedIn(db, existence) <= objects
      ensures Suffices(client, db, f, objects, fields, indices)
    {
      assert forall o :: Lists(db, o) ==> o in ListedIn(db, existence);
      forall k: ObjectFieldId | k.fieldId == f && !(k.objId in objects && f in fields)
        ensures Lookup(client.fields, k) == Lookup(db.fields, k)
      {
        assert k !in client.fields && k !in db.fields;
      }
    }

    /** What a transaction must do to keep everything listed: write values of the type only for objects listed
        then, list objects in the type's indices only if they are listed then, and take everything from an
        object it unlists. */
    ghost predicate Respects(db: Database, t: Transaction) {
      && (forall k :: k in t.writes && t.writes[k].Some? && k.fieldId in fields + indices ==>
            k.fieldId in fields && ListsAfter(db, t, k.objId))
      && (forall m :: m in Pairs(t.setAdds) && m !in Pairs(t.setRemoves) && m.index.fieldId in fields + indices ==>
            m.index.fieldId in indices && ListsAfter(db, t, m.objId))
      && (forall o :: Lists(db, o) && !ListsAfter(db, t, o) ==>
            && (forall k :: k in db.fields && k.objId == o && k.fieldId in fields ==> k in t.writes)
            && (forall m :: m in db.members && m.objId == o && m.index.fieldId in indices ==> m in Pairs(t.setRemoves)))
    }

    ghost predicate ListsAfter(db: Database, t: Transaction, o: ObjectId) {
      var m := Membership(existence, o);
      (m in db.members || m in Pairs(t.setAdds)) && m !in Pairs(t.setRemoves)
    }

    lemma CommitKeepsListed(db: Database, t: Transaction)
      requires AllListed(db)
      ensures AllListed(Apply(db, t)) <==> Respects(db, t)
    {
      var after := Apply(db, t);
      assert forall o :: Lists(after, o) <==> ListsAfter(db, t, o);
      assert forall k :: Lookup(after.fields, k) == if k in t.writes then t.writes[k] else Lookup(db.fields, k);
      hide Updated;
      if Respects(db, t) {
        forall k | k in after.fields && k.fieldId in fields + indices
          ensures k.fieldId in fields && Lists(after, k.objId)
        {
          assert Lookup(after.fields, k).Some?;
        }
        forall m | m in after.members && m.index.fieldId in fields + indices
          ensures m.index.fieldId in indices && Lists(after, m.objId)
        {
        }
      }
      if AllListed(after) {
        forall k | k in t.writes && t.writes[k].Some? && k.fieldId in fields + indices
          ensures k.fieldId in fields && ListsAfter(db, t, k.objId)
        {
          assert Lookup(after.fields, k).Some?;
        }
        forall o, k | Lists(db, o) && !ListsAfter(db, t, o) && k in db.fields && k.objId == o && k.fieldId in fields
          ensures k in t.writes
        {
          assert k !in after.fields;
        }
        forall o, m |
          Lists(db, o) && !ListsAfter(db, t, o) && m in db.members && m.objId == o && m.index.fieldId in indices
          ensures m in Pairs(t.setRemoves)
        {
          assert m !in after.members;
        }
      }
    }

    /** The type is one of those `t` keeps the indices of: its indices are over its fields, one of them over the
        existence field alone. */
    ghost predicate Fits(t: ObjectType) {
      var e := existence.fieldId;
      && e in fields && e in indices && e in t.indices && t.indices[e] == [e]
      && (forall i :: i in t.indices && i in fields + indices ==> i in indices)
      && (forall i :: i in indices ==>
            i in t.indices && t.indices[i] != [] && forall f :: f in t.indices[i] ==> f in fields)
    }

    /** What a client must do to keep everything listed: assign only fields, look whether an object exists before
        assigning one of its fields, create objects as the type does, and delete all fields of an object. */
    ghost predicate Careful(t: ObjectType, view: View)
      reads view
    {
      forall k :: k in view.Cached() && k.fieldId in fields + indices ==>
        k.fieldId in fields && CarefulAbout(t, view, k)
    }

    ghost predicate CarefulAbout(t: ObjectType, view: View, k: ObjectFieldId)
      reads view
    {
      var e := ObjectFieldId(k.objId, existence.fieldId);
      if e in view.Cached() then
        match Lookup(view.CurrentFields(), e)
        case Some(v) => t.encode([v]) == existence.indexValue
        case None => forall f :: f in fields ==> DeletedIn(view, ObjectFieldId(k.objId, f))
      else
        k in view.CurrentFields() ==> e in view.readValues && e in view.base.fields
    }

    ghost predicate DeletedIn(view: View, k: ObjectFieldId)
      reads view
    {
      k in view.Cached() && k !in view.CurrentFields()
    }

    lemma ListsIfExists(t: ObjectType, db: Database, o: ObjectId)
      requires Fits(t) && t.Indexed(db)
      ensures var e := ObjectFieldId(o, existence.fieldId);
              Lists(db, o) <==> e in db.fields && t.encode([db.fields[e]]) == existence.indexValue
    {
      var e := ObjectFieldId(o, existence.fieldId);
      assert t.IndexedAt(db, existence.fieldId, o);
      assert existence == IndexId(existence.fieldId, existence.indexValue);
      if e in db.fields {
        t.ValueFrom(db.fields, [existence.fieldId], o, [db.fields[e]]);
      } else {
        assert [existence.fieldId][0] in [existence.fieldId];
      }
    }

    lemma ValueIsListed(t: ObjectType, view: View, db: Database, after: Database, k: ObjectFieldId)
      requires Fits(t) && view.Valid() && t.Indexed(db) && t.Indexed(after) && AllListed(db) && Careful(t, view)
      requires forall j :: j in view.readValues ==> Lookup(db.fields, j) == Lookup(view.base.fields, j)
      requires after.fields == Updated(db.fields, view.ExtractWrites())
      requires k in after.fields && k.fieldId in fields + indices
      ensures k.fieldId in fields && Lists(after, k.objId)
    {
      var e := ObjectFieldId(k.objId, existence.fieldId);
      var writes := view.ExtractWrites();
      assert writes.Keys == view.Cached();
      assert forall j :: j in writes ==> writes[j] == Lookup(view.CurrentFields(), j);
      assert forall j :: Lookup(after.fields, j) == if j in writes then writes[j] else Lookup(db.fields, j);
      hide ObjectType.Indexed, Updated, View.Cached, View.ExtractWrites, View.CurrentFields;
      ListsIfExists(t, db, k.objId);
      ListsIfExists(t, after, k.objId);
      assert Lookup(after.fields, k).Some?;
      if k in writes {
        assert CarefulAbout(t, view, k);
      }
      if e in writes {
        assert CarefulAbout(t, view, e);
      }
      assert Lookup(after.fields, e) == if e in writes then writes[e] else Lookup(db.fields, e);
    }

    lemma EntryHasValue(t: ObjectType, db: Database, m: Membership) returns (k: ObjectFieldId)
      requires Fits(t) && t.Indexed(db) && m in db.members && m.index.fieldId in indices
      ensures k in db.fields && k.objId == m.objId && k.fieldId in fields
    {
      var i := m.index.fieldId;
      assert t.IndexedAt(db, i, m.objId) && m == Membership(IndexId(i, m.index.indexValue), m.objId);
      assert t.indices[i][0] in t.indices[i];
      k := ObjectFieldId(m.objId, t.indices[i][0]);
    }

    /** Then the transaction keeps everything listed, whatever was committed since the view was opened, as long
        as nothing it read was changed. */
    lemma CarefulKeepsListed(t: ObjectType, view: View, db: Database, tid: TransactionId)
      requires Fits(t) && t.Sound(view) && t.Indexed(view.base) && t.Indexed(db)
      requires forall k :: k in view.readValues ==> Lookup(db.fields, k) == Lookup(view.base.fields, k)
      requires AllListed(db) && Careful(t, view)
      ensures AllListed(Apply(db, Transaction(tid, view.ExtractWrites(), view.setAdds, view.setRemoves)))
    {
      var after := Apply(db, Transaction(tid, view.ExtractWrites(), view.setAdds, view.setRemoves));
      assert after.fields == Updated(db.fields, view.ExtractWrites());
      assert forall m :: m in after.members ==> m in db.members || m in Views.Changed(view);
      assert forall m :: m in Views.Changed(view) ==> m.index.fieldId in t.indices;
      t.CommitKeepsIndexed(view, db, tid);
      hide ObjectType.Sound, ObjectType.Indexed, Apply, Careful, View.ExtractWrites, Updated;
      forall k | k in after.fields && k.fieldId in fields + indices
        ensures k.fieldId in fields && Lists(after, k.objId)
      {
        ValueIsListed(t, view, db, after, k);
      }
      forall m | m in after.members && m.index.fieldId in fields + indices
        ensures m.index.fieldId in indices && Lists(after, m.objId)
      {
        assert m.index.fieldId in indices;
        var k := EntryHasValue(t, after, m);
        ValueIsListed(t, view, db, after, k);
      }
    }
  }

  /** Commit a view. If it read truly and was careful, then everything stays listed, whether it is accepted or
      refused and whatever was committed since it was opened. */
  method CommitCarefully(s: Server, d: TypeDef, t: ObjectType, view: View, now: int) returns (r: Outcome)
    requires s.Valid() && AlwaysIndexed(t, s.log) && d.Fits(t) && d.AllListed(Replay(s.log)) && view.Valid()
    modifies s`curTransactionNum, s`versionNumbers, s`versionNumbersTimestamps, s`sent
    modifies s`pendingSubscriptionRecheck, s`log, s`readSets, s.store
    ensures TrueReads(t, view, old(s.log)) ==> s.Valid() && AlwaysIndexed(t, s.log)
    ensures TrueReads(t, view, old(s.log)) && d.Careful(t, view) ==> d.AllListed(Replay(s.log))
    ensures s.Valid() ==>
              (r.Committed? <==> && old(s.minAcceptableVersionNumber) <= view.tid <= old(s.curTransactionNum)
                                 && !Conflicts(old(s.log), RequestOf(view)))
    ensures s.log
            == if r.Committed? then old(s.log) + [TransactionOf(RequestOf(view), s.curTransactionNum)] else old(s.log)
  {
    hide Server.Valid, AlwaysIndexed, TypeDef.Fits, TypeDef.AllListed, TypeDef.Careful, TrueReads, Apply, FieldsHeld;
    hide AlwaysCarried, WritesFields, Replay, Conflicts, RequestOf, TransactionOf, SentAfter, Server.CanHandle;
    hide ObjectType.Sound, ObjectType.Indexed, View.Valid;
    NumbersSoFar(s);
    if !Conflicts(s.log, RequestOf(view)) && view.tid <= s.curTransactionNum
       && TrueReads(t, view, s.log) && d.Careful(t, view) {
      CarefulCommitStaysListed(d, t, view, s.log, s.curTransactionNum + 1);
    }
    r := Commit(s, t, view, now);
  }

  lemma CarefulCommitStaysListed(d: TypeDef, t: ObjectType, view: View, log: Log, tid: TransactionId)
    requires AlwaysIndexed(t, log) && d.Fits(t) && d.AllListed(Replay(log))
    requires TrueReads(t, view, log) && d.Careful(t, view)
    requires view.tid < tid && (forall x :: x in log ==> x.tid < tid) && !Conflicts(log, RequestOf(view))
    ensures d.AllListed(Replay(log + [TransactionOf(RequestOf(view), tid)]))
  {
    var tx := TransactionOf(RequestOf(view), tid);
    var plain := Transaction(tid, view.ExtractWrites(), view.setAdds, view.setRemoves);
    assert Pairs(tx.setAdds) == Pairs(view.setAdds) && Pairs(tx.setRemoves) == Pairs(view.setRemoves);
    assert tx.writes == plain.writes;
    assert Apply(Replay(log), tx) == Apply(Replay(log), plain);
    hide StateAt, Replay, Conflicts, Apply, ObjectType.Indexed, ObjectType.Sound, TransactionOf, View.ExtractWrites;
    hide TypeDef.AllListed, TypeDef.Careful, TypeDef.Fits;
    ReadsStillHold(t, view, log, tid);
    StateAtEnd(log, tid);
    assert t.Indexed(StateAt(log, tid));
    d.CarefulKeepsListed(t, view, Replay(log), tid);
    ReplayAppend(log, tx);
  }

  /** A channel that was sent nothing of a field has no leftovers of it. */
  lemma NothingSentNothingLeft(d: TypeDef, sent: Log, db: Database, f: FieldId)
    requires forall t :: t in sent ==> f !in TouchedFields(t)
    ensures d.NoLeftovers(Replay(sent), db, f)
  {
    hide StateAt, Replay, TouchedFields;
    var v := HighestNumber(sent);
    StateAtEnd(sent, v);
    NeverTouched(sent, f, v);
    forall k: ObjectFieldId | k.fieldId == f
      ensures Lookup(Replay(sent).fields, k).None?
    {
      assert Lookup(Replay(sent).fields, k) == Lookup(EMPTY.fields, k);
    }
    assert forall k :: k in Replay(sent).fields ==> Lookup(Replay(sent).fields, k).Some?;
  }

  lemma {:induction false} HighestNumber(log: Log) returns (v: TransactionId)
    ensures forall t :: t in log ==> t.tid <= v
  {
    v := 0;
    if log != [] {
      var last := log[|log| - 1];
      var w := HighestNumber(log[..|log| - 1]);
      v := Max(w, last.tid);
    }
  }

  /** Subscribe to a type. If everything is listed, the client can from now on rely on every field and every index
      of the type, over one field or several, exactly if it had no leftovers of it, as is certain of what it was
      never sent anything of. */
  method SubscribeToListed(s: Server, channel: ChannelId, d: TypeDef)
    requires s.Valid() && channel in s.sent && channel !in s.stale && d.AllListed(Replay(s.log))
    modifies s`sent, s`fieldIdToChannel, s`mirrors, s`stale
    ensures s.Valid() && channel in s.sent && s.stale == old(s.stale) && old(s.mirrors) <= s.mirrors
    ensures s.log == old(s.log) && s.sent.Keys == old(s.sent).Keys && old(s.sent)[channel] <= s.sent[channel]
    ensures forall c :: c in s.sent && c != channel ==> s.sent[c] == old(s.sent)[c]
    ensures forall f :: f in d.fields + d.indices ==>
              (Mirrors(s.sent[channel], s.log, f, s.curTransactionNum)
               <==> d.NoLeftovers(Replay(old(s.sent)[channel]), Replay(s.log), f))
    ensures forall f :: f in d.fields + d.indices && d.NoLeftovers(Replay(old(s.sent)[channel]), Replay(s.log), f) ==>
              Mirror(channel, f, s.curTransactionNum, if f in d.fields then {f} else d.fields) in s.mirrors
    ensures forall f ::
              f in d.fields + d.indices && (forall t :: t in old(s.sent)[channel] ==> f !in TouchedFields(t)) ==>
              Mirror(channel, f, s.curTransactionNum, if f in d.fields then {f} else d.fields) in s.mirrors
  {
    forall f | forall t :: t in s.sent[channel] ==> f !in TouchedFields(t)
      ensures d.NoLeftovers(Replay(s.sent[channel]), Replay(s.log), f)
    {
      NothingSentNothingLeft(d, s.sent[channel], Replay(s.log), f);
    }
    hide TouchedFields;
    hide Server.Valid, TypeDef.AllListed, TypeDef.NoLeftovers, Replay, SnapshotOf, Suffices, Mirrors;
    ExistingAreListed(s, d);
    forall f | f in d.fields + d.indices
      ensures Suffices(Replay(s.sent[channel]), Replay(s.log), f, ListedIn(Replay(s.log), d.existence), d.fields,
                       d.indices)
              <==> d.NoLeftovers(Replay(s.sent[channel]), Replay(s.log), f)
    {
      d.ListedSuffices(Replay(s.sent[channel]), Replay(s.log), f);
    }
    s.HandleSubscriptionInForeground(channel, d.fields, d.indices, d.existence);
  }

  lemma ExistingAreListed(s: Server, d: TypeDef)
    requires s.Valid()
    ensures Existing(s.store.sets, d.existence) == ListedIn(Replay(s.log), d.existence)
  {
    hide Replay, Tracks, Serializable, ChannelsInOrder;
    assert IndicesHeld(s.store.sets, Replay(s.log));
    assert forall o ::
             o in Existing(s.store.sets, d.existence) <==> Membership(d.existence, o) in Replay(s.log).members;
  }

  lemma StoredIsCommitted(s: Server, k: ObjectFieldId)
    requires s.Valid()
    ensures Lookup(s.store.data, FieldValue(k)) == Lookup(Replay(s.log).fields, k)
  {
    hide Replay, Tracks, Serializable, ChannelsInOrder;
    assert FieldsHeld(s.store.data, Replay(s.log));
  }

  /** A type with an index over its existence field, which nobody has set. */
  lemma NothingIndexed(t: ObjectType, db: Database)
    requires t.indices == map[1 := [1]] && forall k :: k in db.fields ==> k.fieldId != 1
    ensures t.Indexed(db) <==> forall m :: m in db.members ==> m.index.fieldId != 1
  {
    assert [1][0] in t.indices[1];
    assert forall o :: ObjectFieldId(o, 1) !in db.fields;
    assert forall o :: t.IndexValueOf(db.fields, [1], o).None?;
    if t.Indexed(db) {
      forall m | m in db.members
        ensures m.index.fieldId != 1
      {
        assert t.IndexedAt(db, 1, m.objId);
        assert m == Membership(IndexId(m.index.fieldId, m.index.indexValue), m.objId);
      }
    }
  }

  method AssignUnlisted(t: ObjectType) returns (view: View)
    requires t.indices == map[1 := [1]]
    ensures fresh(view) && t.Sound(view) && view.base == EMPTY && view.tid == 0
    ensures Lookup(view.CurrentFields(), ObjectFieldId(7, 2)) == Some([5]) && view.CurrentMembers() == {}
  {
    hide ObjectType.Indexed, ObjectType.Recorded, ObjectType.IndexValueOf;
    view := new View(EMPTY, 0, true);
    NothingIndexed(t, EMPTY);
    t.FreshViewIsSound(view);
    var r := t.SetFieldValue(view, 2, 7, Some([5]));
    forall k | k in view.CurrentFields()
      ensures k.fieldId != 1
    {
      assert Lookup(view.CurrentFields(), k).Some?;
    }
    NothingIndexed(t, view.Current());
  }

  lemma CommitsUnlisted(t: ObjectType, view: View)
    requires t.indices == map[1 := [1]] && view.Valid() && view.base == EMPTY && view.tid == 0
    ensures AlwaysIndexed(t, []) && Faithful(t, view, []) && !Conflicts([], RequestOf(view))
    ensures t.Sound(view) ==> TrueReads(t, view, [])
    ensures Replay([TransactionOf(RequestOf(view), 1)]) == view.Current()
  {
    NothingIndexed(t, EMPTY);
    var tx := TransactionOf(RequestOf(view), 1);
    var plain := Transaction(1, view.ExtractWrites(), view.setAdds, view.setRemoves);
    assert Pairs(tx.setAdds) == Pairs(view.setAdds) && Pairs(tx.setRemoves) == Pairs(view.setRemoves);
    view.ExtractedIsCurrent(1);
    ReplayAppend([], tx);
    assert [] + [tx] == [tx];
  }

  /** A client assigns a field of object 7 in an empty database. */
  method CommitUnlisted() returns (s: Server)
    ensures fresh(s) && fresh(s.store) && s.Valid() && |s.log| == 1 && s.curTransactionNum == 1
    ensures s.sent == map[] && s.mirrors == {} && s.stale == {}
    ensures Replay(s.log).members == {} && Lookup(Replay(s.log).fields, ObjectFieldId(7, 2)) == Some([5])
  {
    hide Server.Valid, Replay, TransactionOf, RequestOf, ObjectType.Sound, Conflicts, TrueReads, AlwaysIndexed;
    hide AlwaysCarried, Server.CanHandle, FieldsHeld;
    hide View.CurrentFields, View.CurrentMembers;
    s := new Server();
    var t := ObjectType(map[1 := [1]], values => if |values| == 1 then values[0] else []);
    var view := AssignUnlisted(t);
    assert view.Valid() by {
      SoundIsValid(t, view);
    }
    CommitsUnlisted(t, view);
    var r := Commit(s, t, view, 0);
    assert s.log == [TransactionOf(RequestOf(view), 1)];
  }

  lemma SoundIsValid(t: ObjectType, view: View)
    requires t.Sound(view)
    ensures view.Valid()
  {
  }

  /** Being listed matters: a client assigns a field of object 7, which no index lists. Nothing keeps the
      transaction from being committed, and a subscriber to the type then misses what is stored. */
  method UnlistedFieldIsMissed() returns (s: Server, d: TypeDef)
    ensures fresh(s) && s.Valid() && 0 in s.sent && s.stale == {} && |s.log| == 1
    ensures 2 in d.fields && Subscribed(s.fieldIdToChannel, 0, d.fields) && Existing(s.store.sets, d.existence) == {}
    ensures Lookup(s.store.data, FieldValue(ObjectFieldId(7, 2))) == Some([5])
    ensures !Mirrors(s.sent[0], s.log, 2, s.curTransactionNum) && forall m :: m in s.mirrors ==> m.fieldId != 2
  {
    hide Server.Valid, SnapshotOf, Mirrors;
    d := TypeDef({1, 2}, {1}, IndexId(1, [0]));
    s := CommitUnlisted();
    s.OpenChannel(0);
    ExistingAreListed(s, d);
    s.HandleSubscriptionInForeground(0, d.fields, d.indices, d.existence);
    StoredIsCommitted(s, ObjectFieldId(7, 2));
    assert !Mirrors(s.sent[0], s.log, 2, s.curTransactionNum);
  }
}
