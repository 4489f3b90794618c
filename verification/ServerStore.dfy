/** How the server lays the database out in its key-value store: field values, index sets, a reverse
    map from objects to index values, and per index field the set of values in use. */
module ServerStore {
  import opened Common
  import opened OrderedSets
  import opened Database
  import opened Persistence

  function Identities(os: set<ObjectId>): (s: set<SetValue>)
    ensures forall x :: x in s <==> x.Identity? && x.objId in os
    ensures os != {} ==> s != {}
  {
    var s := set o | o in os :: Identity(o);
    assert forall o :: o in os ==> Identity(o) in s;
    assert os != {} ==> s != {} by {
      if os != {} {
        var o := AnElement(os);
        assert Identity(o) in s;
      }
    }
    s
  }

  /** The index lists of a transaction as updates of the store's sets. */
  function ToSets(m: map<IndexId, set<ObjectId>>): (s: Sets)
    ensures forall i, o :: Identity(o) in Members(s, IndexMembers(i)) <==> i in m && o in m[i]
    ensures forall k, x :: x in Members(s, k) ==> k.IndexMembers? && x.Identity?
    ensures forall i :: IndexMembers(i) in s <==> i in m
    ensures forall k :: k in s ==> k.IndexMembers?
    ensures (forall i :: i in m ==> m[i] != {}) ==> NoEmpty(s)
  {
    var s := map i | i in m :: IndexMembers(i) := Identities(m[i]);
    assert forall k :: k in s ==> k.IndexMembers? && s[k] == Identities(m[k.index]);
    assert forall k, x :: x in Members(s, k) ==> k in s && x in Identities(m[k.index]);
    s
  }

  ghost predicate FieldsHeld(data: Data, db: Database) {
    forall k :: Lookup(data, FieldValue(k)) == Lookup(db.fields, k)
  }

  ghost predicate IndicesHeld(sets: Sets, db: Database) {
    && NoEmpty(sets)
    && (forall i, o :: Identity(o) in Members(sets, IndexMembers(i)) <==> Membership(i, o) in db.members)
    && (forall i, x :: x in Members(sets, IndexMembers(i)) ==> x.Identity?)
  }

  /** The reverse map sends (field, object) to a value exactly when the object is in that value's set. */
  ghost predicate ReverseHeld(data: Data, db: Database) {
    forall m: Membership :: Lookup(data, ReverseKey(m)) == Some(m.index.indexValue) <==> m in db.members
  }

  /** The metadata of an index field lists exactly the values whose object set is not empty. */
  ghost predicate ValuesListed(sets: Sets) {
    && (forall i: IndexId :: Value(i.indexValue) in Members(sets, IndexValues(i.fieldId)) <==> IndexMembers(i) in sets)
    && (forall f, x :: x in Members(sets, IndexValues(f)) ==> x.Value?)
  }

  ghost predicate Holds(data: Data, sets: Sets, db: Database) {
    FieldsHeld(data, db) && IndicesHeld(sets, db) && ReverseHeld(data, db) && ValuesListed(sets)
  }

  /** An update of the indices that agrees with what they hold: nothing is added twice, only members are
      removed, and an object leaves the old value of a field before it gets a new one. */
  ghost predicate Consistent(members: set<Membership>, adds: map<IndexId, set<ObjectId>>,
                             removes: map<IndexId, set<ObjectId>>) {
    && (forall m :: m in Pairs(adds) ==> m !in members)
    && (forall m :: m in Pairs(removes) ==> m in members)
    && (forall m, n :: m in Pairs(adds) && n in Pairs(adds) && SameEntry(m, n) ==> m == n)
    && (forall m, n :: m in Pairs(adds) && n in members && SameEntry(m, n) ==> n in Pairs(removes))
  }

  /** The same object in the same index field, possibly under different values. */
  predicate SameEntry(m: Membership, n: Membership) {
    m.objId == n.objId && m.index.fieldId == n.index.fieldId
  }

  function ReverseKey(m: Membership): DataKey {
    ReverseIndex(ObjectFieldId(m.objId, m.index.fieldId))
  }

  /** What the reverse map must be told: removed objects have no value unless they get a new one. */
  ghost predicate IsReverseUpdate(kvs: map<DataKey, Option<Bytes>>, adds: map<IndexId, set<ObjectId>>,
                                  removes: map<IndexId, set<ObjectId>>) {
    IsReverseUpdateOf(kvs, Pairs(adds), Pairs(removes))
  }

  ghost predicate IsReverseUpdateOf(kvs: map<DataKey, Option<Bytes>>, adds: set<Membership>, removes: set<Membership>) {
    && (forall k :: k in kvs ==> exists m :: m in adds + removes && k == ReverseKey(m))
    && (forall m :: m in adds + removes ==> ReverseKey(m) in kvs)
    && (forall k :: k in kvs && kvs[k].Some? ==>
          exists m :: m in adds && k == ReverseKey(m) && kvs[k] == Some(m.index.indexValue))
    && (forall m :: m in adds ==> kvs[ReverseKey(m)].Some?)
  }

  /** Storing the writes and applying the index lists keeps fields and indices in step with the database. */
  lemma FieldsStayHeld(data: Data, db: Database, t: Transaction, data': Data)
    requires FieldsHeld(data, db)
    requires forall k ::
               Lookup(data', FieldValue(k)) == if k in t.writes then t.writes[k] else Lookup(data, FieldValue(k))
    ensures FieldsHeld(data', Apply(db, t))
  {
  }

  lemma IndicesStayHeld(sets: Sets, db: Database, t: Transaction)
    requires IndicesHeld(sets, db)
    ensures IndicesHeld(SetsAfter(sets, ToSets(t.setAdds), ToSets(t.setRemoves)), Apply(db, t))
  {
    hide SetsAfter, Apply, MembersAfter;
    forall i, x: SetValue
      ensures x in Members(SetsAfter(sets, ToSets(t.setAdds), ToSets(t.setRemoves)), IndexMembers(i))
              <==> x.Identity? && Membership(i, x.objId) in Apply(db, t).members
    {
      MemberAfter(sets, db, t, i, x);
    }
  }

  lemma MemberAfter(sets: Sets, db: Database, t: Transaction, i: IndexId, x: SetValue)
    requires IndicesHeld(sets, db)
    ensures x in Members(SetsAfter(sets, ToSets(t.setAdds), ToSets(t.setRemoves)), IndexMembers(i))
            <==> x.Identity? && Membership(i, x.objId) in Apply(db, t).members
  {
    assert x in Members(sets, IndexMembers(i)) <==> x.Identity? && Membership(i, x.objId) in db.members;
    assert x.Identity? ==> x == Identity(x.objId);
  }

  /** A consistent update passes the assertions of the in-memory store. */
  lemma ConsistentIsAccepted(sets: Sets, db: Database, adds: map<IndexId, set<ObjectId>>,
                             removes: map<IndexId, set<ObjectId>>)
    requires IndicesHeld(sets, db) && Consistent(db.members, adds, removes)
    ensures AddsAreNew(sets, ToSets(adds)) && RemovesArePresent(sets, ToSets(adds), ToSets(removes))
    ensures forall j :: j in ToSets(removes) ==> ToSets(removes)[j] <= Members(sets, j)
    ensures forall j :: j in ToSets(removes) ==> ToSets(removes)[j] !! Members(ToSets(adds), j)
  {
    var a, r := ToSets(adds), ToSets(removes);
    forall k, x | k in a && x in a[k]
      ensures x !in Members(sets, k)
    {
      assert x in Members(a, k) && x == Identity(x.objId);
      assert Membership(k.index, x.objId) in Pairs(adds);
    }
    forall k, x | k in r && x in r[k]
      ensures x in Members(sets, k) && x !in Members(a, k)
    {
      assert x in Members(r, k) && x == Identity(x.objId);
      assert Membership(k.index, x.objId) in Pairs(removes);
    }
  }

  /** What the assertions check: nothing is added that is there, and nothing removed that is not. */
  lemma AcceptedChanges(sets: Sets, db: Database, adds: map<IndexId, set<ObjectId>>,
                        removes: map<IndexId, set<ObjectId>>)
    requires IndicesHeld(sets, db) && Pairs(adds) !! Pairs(removes)
    requires AddsAreNew(sets, ToSets(adds)) && RemovesArePresent(sets, ToSets(adds), ToSets(removes))
    ensures Pairs(adds) !! db.members && Pairs(removes) <= db.members
  {
    hide NoEmpty;
    forall m | m in Pairs(adds)
      ensures m !in db.members
    {
      assert Identity(m.objId) in Members(ToSets(adds), IndexMembers(m.index));
      assert m == Membership(m.index, m.objId);
    }
    forall m | m in Pairs(removes)
      ensures m in db.members
    {
      assert Identity(m.objId) in Members(ToSets(removes), IndexMembers(m.index));
      assert m == Membership(m.index, m.objId) && m !in Pairs(adds);
      assert Identity(m.objId) !in Members(ToSets(adds), IndexMembers(m.index));
    }
  }

  /** Only a consistent update both passes the assertions and leaves a reverse map that holds. */
  lemma InconsistentShows(sets: Sets, db: Database, t: Transaction, data': Data)
    requires IndicesHeld(sets, db) && Pairs(t.setAdds) !! Pairs(t.setRemoves)
    requires AddsAreNew(sets, ToSets(t.setAdds)) && RemovesArePresent(sets, ToSets(t.setAdds), ToSets(t.setRemoves))
    requires ReverseHeld(data', Apply(db, t))
    ensures Consistent(db.members, t.setAdds, t.setRemoves)
  {
    hide IndicesHeld, AddsAreNew, RemovesArePresent, ToSets, ReverseHeld;
    AcceptedChanges(sets, db, t.setAdds, t.setRemoves);
    assert Apply(db, t).members == db.members + Pairs(t.setAdds) - Pairs(t.setRemoves);
    hide Apply, Pairs;
    forall m, n | m in Pairs(t.setAdds) && n in Apply(db, t).members && SameEntry(m, n)
      ensures m == n
    {
      OneEntryEach(data', Apply(db, t), m, n);
    }
  }

  lemma OneEntryEach(data: Data, db: Database, m: Membership, n: Membership)
    requires ReverseHeld(data, db) && m in db.members && n in db.members && SameEntry(m, n)
    ensures m == n
  {
    assert ReverseKey(m) == ReverseKey(n);
    assert Lookup(data, ReverseKey(m)) == Some(m.index.indexValue) == Some(n.index.indexValue);
  }

  lemma ReverseStaysHeld(data: Data, db: Database, t: Transaction, kvs: map<DataKey, Option<Bytes>>, data': Data)
    requires ReverseHeld(data, db) && Consistent(db.members, t.setAdds, t.setRemoves)
    requires IsReverseUpdate(kvs, t.setAdds, t.setRemoves)
    requires forall k: DataKey :: k.ReverseIndex? ==> Lookup(data', k) == if k in kvs then kvs[k] else Lookup(data, k)
    ensures ReverseHeld(data', Apply(db, t))
  {
    forall m: Membership
      ensures Lookup(data', ReverseKey(m)) == Some(m.index.indexValue) <==> m in Apply(db, t).members
    {
      ReverseEntry(data, db, t, kvs, data', m);
    }
  }

  lemma ReverseEntry(data: Data, db: Database, t: Transaction, kvs: map<DataKey, Option<Bytes>>, data': Data,
                     m: Membership)
    requires ReverseHeld(data, db) && Consistent(db.members, t.setAdds, t.setRemoves)
    requires IsReverseUpdate(kvs, t.setAdds, t.setRemoves)
    requires Lookup(data', ReverseKey(m))
             == if ReverseKey(m) in kvs then kvs[ReverseKey(m)] else Lookup(data, ReverseKey(m))
    ensures Lookup(data', ReverseKey(m)) == Some(m.index.indexValue) <==> m in Apply(db, t).members
  {
    var k := ReverseKey(m);
    var adds, removes := Pairs(t.setAdds), Pairs(t.setRemoves);
    assert Lookup(data, k) == Some(m.index.indexValue) <==> m in db.members;
    if k in kvs && kvs[k].Some? {
      var n :| n in adds && k == ReverseKey(n) && kvs[k] == Some(n.index.indexValue);
      assert SameEntry(n, m);
    } else if k in kvs {
      var n :| n in adds + removes && k == ReverseKey(n);
      assert n !in adds && n in removes && n in db.members;
      assert Lookup(data, ReverseKey(n)) == Some(n.index.indexValue);
      assert m !in adds;
    }
  }

  /** The values named by a set of index keys, per index field. */
  ghost predicate GroupsByField(g: Sets, s: set<SetKey>) {
    && NoEmpty(g) && (forall k :: k in g ==> k.IndexValues?)
    && (forall i: IndexId :: Value(i.indexValue) in Members(g, IndexValues(i.fieldId)) <==> IndexMembers(i) in s)
    && (forall k, x :: x in Members(g, k) ==> x.Value?)
  }

  /** Recording the sets that appeared and dropping those that vanished keeps the metadata exact. */
  lemma ValuesStayListed(before: Sets, mid: Sets, news: set<SetKey>, dropped: set<SetKey>, metaAdds: Sets,
                         metaRemoves: Sets)
    requires ValuesListed(before) && NoEmpty(mid)
    requires GroupsByField(metaAdds, news) && GroupsByField(metaRemoves, dropped)
    requires forall f :: Members(mid, IndexValues(f)) == Members(before, IndexValues(f))
    requires forall i :: IndexMembers(i) in news <==> IndexMembers(i) !in before && IndexMembers(i) in mid
    requires forall i :: IndexMembers(i) in dropped <==> IndexMembers(i) in before && IndexMembers(i) !in mid
    ensures AddsAreNew(mid, metaAdds) && RemovesArePresent(mid, metaAdds, metaRemoves)
    ensures ValuesListed(SetsAfter(mid, metaAdds, metaRemoves))
    ensures forall i :: Members(SetsAfter(mid, metaAdds, metaRemoves), IndexMembers(i)) == Members(mid, IndexMembers(i))
  {
    var after := SetsAfter(mid, metaAdds, metaRemoves);
    forall f, x
      ensures x in Members(metaAdds, IndexValues(f)) ==> x !in Members(mid, IndexValues(f))
      ensures x in Members(metaRemoves, IndexValues(f)) ==> x in Members(mid, IndexValues(f))
    {
      if x.Value? {
        var i := IndexId(f, x.bytes);
        assert Value(i.indexValue) in Members(metaAdds, IndexValues(i.fieldId)) <==> IndexMembers(i) in news;
        assert Value(i.indexValue) in Members(metaRemoves, IndexValues(i.fieldId)) <==> IndexMembers(i) in dropped;
        assert Value(i.indexValue) in Members(before, IndexValues(i.fieldId)) <==> IndexMembers(i) in before;
      }
    }
    forall i: IndexId
      ensures Members(after, IndexMembers(i)) == Members(mid, IndexMembers(i))
      ensures IndexMembers(i) in after <==> IndexMembers(i) in mid
    {
      assert Members(after, IndexMembers(i)) == MembersAfter(mid, metaAdds, metaRemoves, IndexMembers(i));
      assert IndexMembers(i) in after <==> Members(after, IndexMembers(i)) != {};
      assert IndexMembers(i) in mid <==> Members(mid, IndexMembers(i)) != {};
    }
    forall i: IndexId
      ensures Value(i.indexValue) in Members(after, IndexValues(i.fieldId)) <==> IndexMembers(i) in mid
    {
      assert Members(after, IndexValues(i.fieldId)) == MembersAfter(mid, metaAdds, metaRemoves, IndexValues(i.fieldId));
      assert Value(i.indexValue) in Members(metaAdds, IndexValues(i.fieldId)) <==> IndexMembers(i) in news;
      assert Value(i.indexValue) in Members(metaRemoves, IndexValues(i.fieldId)) <==> IndexMembers(i) in dropped;
      assert Value(i.indexValue) in Members(before, IndexValues(i.fieldId)) <==> IndexMembers(i) in before;
    }
    forall f, x | x in Members(after, IndexValues(f))
      ensures x.Value?
    {
      assert Members(after, IndexValues(f)) == MembersAfter(mid, metaAdds, metaRemoves, IndexValues(f));
    }
  }

  function ValueKvs(writes: map<ObjectFieldId, Option<Bytes>>): (kvs: map<DataKey, Option<Bytes>>)
    ensures forall k :: FieldValue(k) in kvs <==> k in writes
    ensures forall k :: k in writes ==> kvs[FieldValue(k)] == writes[k]
    ensures forall k :: k in kvs ==> k.FieldValue?
  {
    map k | k in writes :: FieldValue(k) := writes[k]
  }

  /** Between the two calls of `setSeveral` only the metadata lags behind, by the reported changes. */
  ghost predicate MetadataPending(before: Sets, data: Data, mid: Sets, db: Database, changed: Changed) {
    && FieldsHeld(data, db) && IndicesHeld(mid, db) && ReverseHeld(data, db)
    && ValuesListed(before)
    && (forall f :: Members(mid, IndexValues(f)) == Members(before, IndexValues(f)))
    && (forall k :: k in changed.newSets <==> k !in before && k in mid)
    && (forall k :: k in changed.droppedSets <==> k in before && k !in mid)
    && (forall k :: k in changed.newSets + changed.droppedSets ==> k.IndexMembers?)
  }

  ghost predicate NonEmptyLists(t: Transaction) {
    (forall i :: i in t.setAdds ==> t.setAdds[i] != {}) && (forall i :: i in t.setRemoves ==> t.setRemoves[i] != {})
  }

  /** The first call, of a consistent transaction. */
  lemma FirstUpdate(data: Data, sets: Sets, db: Database, t: Transaction, reverse: map<DataKey, Option<Bytes>>)
    requires Holds(data, sets, db) && Consistent(db.members, t.setAdds, t.setRemoves) && NonEmptyLists(t)
    requires IsReverseUpdate(reverse, t.setAdds, t.setRemoves)
    ensures var mid := SetsAfter(sets, ToSets(t.setAdds), ToSets(t.setRemoves));
            && AddsAreNew(sets, ToSets(t.setAdds)) && RemovesArePresent(sets, ToSets(t.setAdds), ToSets(t.setRemoves))
            && MetadataPending(sets, Updated(data, ValueKvs(t.writes) + reverse), mid, Apply(db, t),
                               InMemoryChanged(sets, ToSets(t.setAdds), ToSets(t.setRemoves), mid))
  {
    hide SetsAfter, Apply, Consistent, IsReverseUpdateOf, FieldsHeld, ReverseHeld, IndicesHeld, ToSets;
    hide InMemoryChanged, ValuesListed;
    hide AddsAreNew, RemovesArePresent, Updated;
    FirstUpdateOfData(data, db, t, reverse);
    FirstUpdateOfSets(sets, db, t);
  }

  lemma FirstUpdateOfData(data: Data, db: Database, t: Transaction, reverse: map<DataKey, Option<Bytes>>)
    requires FieldsHeld(data, db) && ReverseHeld(data, db)
    requires Consistent(db.members, t.setAdds, t.setRemoves) && IsReverseUpdate(reverse, t.setAdds, t.setRemoves)
    ensures var data' := Updated(data, ValueKvs(t.writes) + reverse);
            FieldsHeld(data', Apply(db, t)) && ReverseHeld(data', Apply(db, t))
  {
    hide Apply, Consistent, IsReverseUpdateOf, FieldsHeld, ReverseHeld;
    ReverseKvsOnly(reverse, t.setAdds, t.setRemoves);
    FieldsStayHeld(data, db, t, Updated(data, ValueKvs(t.writes) + reverse));
    ReverseStaysHeld(data, db, t, reverse, Updated(data, ValueKvs(t.writes) + reverse));
  }

  lemma FirstUpdateOfSets(sets: Sets, db: Database, t: Transaction)
    requires IndicesHeld(sets, db) && Consistent(db.members, t.setAdds, t.setRemoves) && NonEmptyLists(t)
    ensures var mid := SetsAfter(sets, ToSets(t.setAdds), ToSets(t.setRemoves));
            var changed := InMemoryChanged(sets, ToSets(t.setAdds), ToSets(t.setRemoves), mid);
            && AddsAreNew(sets, ToSets(t.setAdds)) && RemovesArePresent(sets, ToSets(t.setAdds), ToSets(t.setRemoves))
            && IndicesHeld(mid, Apply(db, t))
            && (forall f :: Members(mid, IndexValues(f)) == Members(sets, IndexValues(f)))
            && (forall k :: k in changed.newSets <==> k !in sets && k in mid)
            && (forall k :: k in changed.droppedSets <==> k in sets && k !in mid)
            && (forall k :: k in changed.newSets + changed.droppedSets ==> k.IndexMembers?)
  {
    hide SetsAfter, Apply, Consistent, ToSets;
    var mid := SetsAfter(sets, ToSets(t.setAdds), ToSets(t.setRemoves));
    ConsistentIsAccepted(sets, db, t.setAdds, t.setRemoves);
    IndicesStayHeld(sets, db, t);
    ChangedAppearOrVanish(sets, ToSets(t.setAdds), ToSets(t.setRemoves));
    forall f
      ensures Members(mid, IndexValues(f)) == Members(sets, IndexValues(f))
    {
      assert Members(mid, IndexValues(f))
             == MembersAfter(sets, ToSets(t.setAdds), ToSets(t.setRemoves), IndexValues(f));
    }
  }

  /** The second call, which brings the metadata up to date. */
  lemma SecondUpdate(before: Sets, data: Data, mid: Sets, db: Database, changed: Changed, metaAdds: Sets,
                     metaRemoves: Sets)
    requires MetadataPending(before, data, mid, db, changed)
    requires GroupsByField(metaAdds, changed.newSets) && GroupsByField(metaRemoves, changed.droppedSets)
    ensures AddsAreNew(mid, metaAdds) && RemovesArePresent(mid, metaAdds, metaRemoves)
    ensures Holds(Updated(data, map[]), SetsAfter(mid, metaAdds, metaRemoves), db)
  {
    hide SetsAfter;
    ValuesStayListed(before, mid, changed.newSets, changed.droppedSets, metaAdds, metaRemoves);
  }

  lemma OnlyIndexSetsChange(sets: Sets, t: Transaction, mid: Sets)
    ensures var changed := InMemoryChanged(sets, ToSets(t.setAdds), ToSets(t.setRemoves), mid);
            forall k :: k in changed.newSets + changed.droppedSets ==> k.IndexMembers?
  {
  }

  lemma ReverseKvsOnly(reverse: map<DataKey, Option<Bytes>>, adds: map<IndexId, set<ObjectId>>,
                       removes: map<IndexId, set<ObjectId>>)
    requires IsReverseUpdate(reverse, adds, removes)
    ensures forall k :: k in reverse ==> k.ReverseIndex?
  {
  }

  lemma ChangedAppearOrVanish(before: Sets, adds: Sets, removes: Sets)
    requires NoEmpty(before) && NoEmpty(adds) && NoEmpty(removes)
    requires forall j :: j in removes ==> removes[j] <= Members(before, j) && removes[j] !! Members(adds, j)
    ensures var after := SetsAfter(before, adds, removes);
            var changed := InMemoryChanged(before, adds, removes, after);
            && (forall k :: k in changed.newSets <==> k !in before && k in after)
            && (forall k :: k in changed.droppedSets <==> k in before && k !in after)
  {
  }
}
