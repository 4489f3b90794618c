/** object_database/PyDatabaseObjectType.cpp: setting the fields of database objects inside a view while keeping
    every index, over one field or several, in step with the field values. */
module DatabaseObjectTypes {
  import opened Common
  import opened OrderedSets
  import opened Database
  import opened ServerStore
  import opened Views

  /** The keys `known` settle an index value: its fields are all known up to the first missing one. */
  ghost predicate Walked(known: set<ObjectFieldId>, fields: map<ObjectFieldId, Bytes>, index: seq<FieldId>, o: ObjectId)
  {
    forall n :: 0 <= n < |index| && AllPresent(fields, index[..n], o) ==> ObjectFieldId(o, index[n]) in known
  }

  predicate AllPresent(fields: map<ObjectFieldId, Bytes>, index: seq<FieldId>, o: ObjectId) {
    forall f :: f in index ==> ObjectFieldId(o, f) in fields
  }

  lemma {:induction false} FirstMissing(fields: map<ObjectFieldId, Bytes>, index: seq<FieldId>, o: ObjectId)
    returns (n: nat)
    requires !AllPresent(fields, index, o)
    ensures n < |index| && AllPresent(fields, index[..n], o) && ObjectFieldId(o, index[n]) !in fields
  {
    var last := |index| - 1;
    if AllPresent(fields, index[..last], o) {
      assert index == index[..last] + [index[last]];
      n := last;
    } else {
      n := FirstMissing(fields, index[..last], o);
      assert index[..last][..n] == index[..n];
    }
  }

  lemma LongerLacksToo(fields: map<ObjectFieldId, Bytes>, index: seq<FieldId>, o: ObjectId, n: nat)
    requires n < |index| && ObjectFieldId(o, index[n]) !in fields
    ensures forall m :: n < m <= |index| ==> !AllPresent(fields, index[..m], o)
    ensures !AllPresent(fields, index, o)
  {
  }

  /** Two databases agreeing on what was walked agree on the index value. */
  lemma WalkedSettles(t: ObjectType, known: set<ObjectFieldId>, a: map<ObjectFieldId, Bytes>,
                      b: map<ObjectFieldId, Bytes>, index: seq<FieldId>, o: ObjectId)
    requires Walked(known, a, index, o) && forall k :: k in known ==> Lookup(a, k) == Lookup(b, k)
    ensures t.IndexValueOf(a, index, o) == t.IndexValueOf(b, index, o)
  {
    if AllPresent(a, index, o) {
      forall n | 0 <= n < |index|
        ensures Lookup(a, ObjectFieldId(o, index[n])) == Lookup(b, ObjectFieldId(o, index[n]))
      {
        assert AllPresent(a, index[..n], o);
      }
      t.SameValues(a, b, index, o);
    } else {
      var n := FirstMissing(a, index, o);
      var k := ObjectFieldId(o, index[n]);
      assert Lookup(a, k) == Lookup(b, k) && index[n] in index;
    }
  }

  /** What is known elsewhere walks just as well if it knows the index's fields and holds the same. */
  lemma WalkedElsewhere(known: set<ObjectFieldId>, known': set<ObjectFieldId>, a: map<ObjectFieldId, Bytes>,
                        b: map<ObjectFieldId, Bytes>, index: seq<FieldId>, o: ObjectId)
    requires Walked(known, a, index, o)
    requires forall f :: f in index ==> Lookup(a, ObjectFieldId(o, f)) == Lookup(b, ObjectFieldId(o, f))
    requires forall f :: f in index && ObjectFieldId(o, f) in known ==> ObjectFieldId(o, f) in known'
    ensures Walked(known', b, index, o)
  {
  }

  /** The members less the entries of `o` in some index fields. */
  ghost function Without(members: set<Membership>, indexFields: set<FieldId>, o: ObjectId): set<Membership> {
    set m | m in members && !(m.objId == o && m.index.fieldId in indexFields)
  }

  lemma WithoutTwice(members: set<Membership>, indexFields: set<FieldId>, o: ObjectId)
    ensures Without(Without(members, indexFields, o), indexFields, o) == Without(members, indexFields, o)
  {
  }

  ghost function EntryOf(i: FieldId, value: Option<Bytes>, o: ObjectId): set<Membership> {
    if value.Some? then {Membership(IndexId(i, value.value), o)} else {}
  }

  lemma WithoutOneMore(members: set<Membership>, indexFields: set<FieldId>, i: FieldId, value: Option<Bytes>,
                       o: ObjectId)
    requires EntriesAre(members, i, value, o)
    ensures Without(members, indexFields + {i}, o) == Without(members, indexFields, o) - EntryOf(i, value, o)
  {
  }

  /** The object types of a schema: which index is over which fields, and how several values are put into one. */
  datatype ObjectType = ObjectType(indices: map<FieldId, seq<FieldId>>, encode: seq<Bytes> -> Bytes) {

    function IndicesOf(f: FieldId): (s: set<FieldId>)
      ensures forall i :: i in s <==> i in indices && f in indices[i]
    {
      set i | i in indices && f in indices[i]
    }

    /** The index value of an object, if it has all the fields. */
    function IndexValueOf(fields: map<ObjectFieldId, Bytes>, index: seq<FieldId>, o: ObjectId): Option<Bytes> {
      if AllPresent(fields, index, o) then
        Some(encode(seq(|index|,
                        n requires 0 <= n < |index| => assert index[n] in index; fields[ObjectFieldId(o, index[n])])))
      else
        None
    }

    lemma SameValues(a: map<ObjectFieldId, Bytes>, b: map<ObjectFieldId, Bytes>, index: seq<FieldId>, o: ObjectId)
      requires forall n :: 0 <= n < |index| ==>
                Lookup(a, ObjectFieldId(o, index[n])) == Lookup(b, ObjectFieldId(o, index[n]))
      ensures IndexValueOf(a, index, o) == IndexValueOf(b, index, o)
    {
      assert forall f :: f in index ==> Lookup(a, ObjectFieldId(o, f)) == Lookup(b, ObjectFieldId(o, f));
      assert AllPresent(a, index, o) <==> AllPresent(b, index, o);
      if AllPresent(a, index, o) {
        var x := seq(|index|, n requires 0 <= n < |index| => assert index[n] in index; a[ObjectFieldId(o, index[n])]);
        var y := seq(|index|, n requires 0 <= n < |index| => assert index[n] in index; b[ObjectFieldId(o, index[n])]);
        assert x == y;
      }
    }

    lemma ValueFrom(fields: map<ObjectFieldId, Bytes>, index: seq<FieldId>, o: ObjectId, buffer: seq<Bytes>)
      requires |buffer| == |index|
      requires forall n :: 0 <= n < |index| ==> Lookup(fields, ObjectFieldId(o, index[n])) == Some(buffer[n])
      ensures IndexValueOf(fields, index, o) == Some(encode(buffer))
    {
      assert AllPresent(fields, index, o);
      assert buffer
             == seq(|index|,
                    n requires 0 <= n < |index| => assert index[n] in index; fields[ObjectFieldId(o, index[n])]);
    }

    ghost predicate IndexedAt(db: Database, i: FieldId, o: ObjectId)
      requires i in indices
    {
      EntriesAre(db.members, i, IndexValueOf(db.fields, indices[i], o), o)
    }

    /** Every object is in exactly the index entries its field values say. */
    ghost predicate Indexed(db: Database) {
      forall i, o :: i in indices ==> IndexedAt(db, i, o)
    }

    /** The view has read what settles, before and after its writes, every index value it may have changed. */
    ghost predicate Recorded(view: View)
      reads view
    {
      forall i, o, f :: i in indices && f in indices[i] && ObjectFieldId(o, f) in view.Cached() ==>
        RecordedAt(view, indices[i], o)
    }

    ghost predicate RecordedAt(view: View, index: seq<FieldId>, o: ObjectId)
      reads view
    {
      && Walked(view.readValues, view.base.fields, index, o)
      && Walked(view.readValues + view.Cached(), view.CurrentFields(), index, o)
    }

    /** What holds of every transaction that changes fields through `SetFieldValue` only. */
    ghost predicate Sound(view: View)
      reads view
    {
      && view.Valid() && Indexed(view.Current()) && Recorded(view)
      && (forall m :: m in Changed(view) ==> m.index.fieldId in indices)
    }

    /** The current index value of an object, read field by field. */
    method CalcCurIndexValue(view: View, index: seq<FieldId>, o: ObjectId) returns (r: Option<Bytes>)
      requires view.Valid()
      modifies view`readValues
      ensures r == IndexValueOf(view.CurrentFields(), index, o)
      ensures old(view.readValues) <= view.readValues
      ensures Walked(view.readValues + view.Cached(), view.CurrentFields(), index, o)
    {
      var buffer: seq<Bytes> := [];
      var fieldIndex := 0;
      while fieldIndex < |index|
        invariant 0 <= fieldIndex == |buffer| <= |index|
        invariant old(view.readValues) <= view.readValues
        invariant forall n :: 0 <= n < fieldIndex ==>
                    var k := ObjectFieldId(o, index[n]);
                    k in view.readValues + view.Cached() && Lookup(view.CurrentFields(), k) == Some(buffer[n])
      {
        var data := view.GetField(ObjectFieldId(o, index[fieldIndex]));
        if data.None? {
          LongerLacksToo(view.CurrentFields(), index, o, fieldIndex);
          return None;
        }
        buffer := buffer + [data.value];
        fieldIndex := fieldIndex + 1;
      }
      ValueFrom(view.CurrentFields(), index, o, buffer);
      r := Some(encode(buffer));
    }

    /** Take the object out of every index over the field. Its entry is always there. */
    method RemoveFromIndices(view: View, f: FieldId, o: ObjectId) returns (r: Result<()>)
      requires Sound(view) && NO_OBJECT < o
      modifies view`readValues, view`setAdds, view`setRemoves
      ensures r.Ok? && view.Valid()
      ensures view.CurrentMembers() == Without(old(view.CurrentMembers()), IndicesOf(f), o)
      ensures old(view.readValues) <= view.readValues
      ensures forall i :: i in IndicesOf(f) ==>
                Walked(view.readValues + view.Cached(), view.CurrentFields(), indices[i], o)
      ensures forall m :: m in Changed(view) ==> m.index.fieldId in indices
    {
      hide View.CurrentMembers, View.CurrentFields, View.Cached, View.IndexCachesValid, View.FieldCachesValid;
      hide Walked, IndexValueOf, Recorded;
      var todo := IndicesOf(f);
      assert Without(view.CurrentMembers(), {}, o) == view.CurrentMembers();
      while todo != {}
        invariant todo <= IndicesOf(f) && view.Valid()
        invariant view.CurrentMembers() == Without(old(view.CurrentMembers()), IndicesOf(f) - todo, o)
        invariant old(view.readValues) <= view.readValues
        invariant forall i :: i in IndicesOf(f) - todo ==>
                  Walked(view.readValues + view.Cached(), view.CurrentFields(), indices[i], o)
        invariant forall m :: m in Changed(view) ==> m.index.fieldId in indices
        decreases todo
      {
        ghost var some := AnElement(todo);
        var i :| i in todo;
        ghost var known := view.readValues;
        var value := CalcCurIndexValue(view, indices[i], o);
        MoreReads(view, known, IndicesOf(f) - todo, o);
        assert old(IndexedAt(view.Current(), i, o));
        WithoutOneMore(old(view.CurrentMembers()), IndicesOf(f) - todo, i, value, o);
        if value.Some? {
          assert Membership(IndexId(i, value.value), o) in view.CurrentMembers();
          r := view.IndexRemove(IndexId(i, value.value), o);
          if r.Thrown? {
            return;
          }
        }
        assert IndicesOf(f) - (todo - {i}) == IndicesOf(f) - todo + {i};
        todo := todo - {i};
      }
      assert IndicesOf(f) - todo == IndicesOf(f);
      r := Ok(());
    }

    lemma MoreReads(view: View, known: set<ObjectFieldId>, done: set<FieldId>, o: ObjectId)
      requires done <= indices.Keys && known <= view.readValues
      ensures forall i :: i in done && Walked(known + view.Cached(), view.CurrentFields(), indices[i], o) ==>
                Walked(view.readValues + view.Cached(), view.CurrentFields(), indices[i], o)
    {
    }

    /** Put the object into every index over the field under its value there. It is never in one already. */
    method AddToIndices(view: View, f: FieldId, o: ObjectId) returns (r: Result<()>)
      requires view.Valid() && NO_OBJECT < o
      requires forall m :: m in Changed(view) ==> m.index.fieldId in indices
      requires Without(view.CurrentMembers(), IndicesOf(f), o) == view.CurrentMembers()
      modifies view`readValues, view`setAdds, view`setRemoves
      ensures r.Ok? && view.Valid()
      ensures Without(view.CurrentMembers(), IndicesOf(f), o) == old(view.CurrentMembers())
      ensures forall i :: i in IndicesOf(f) ==>
                EntriesAre(view.CurrentMembers(), i, IndexValueOf(view.CurrentFields(), indices[i], o), o)
      ensures old(view.readValues) <= view.readValues
      ensures forall i :: i in IndicesOf(f) ==>
                Walked(view.readValues + view.Cached(), view.CurrentFields(), indices[i], o)
      ensures forall m :: m in Changed(view) ==> m.index.fieldId in indices
    {
      hide View.CurrentMembers, View.CurrentFields, View.Cached, View.IndexCachesValid, View.FieldCachesValid;
      hide Walked, IndexValueOf;
      hide Without, EntriesAre;
      var todo := IndicesOf(f);
      while todo != {}
        invariant todo <= IndicesOf(f) && view.Valid()
        invariant Without(view.CurrentMembers(), IndicesOf(f), o) == old(view.CurrentMembers())
        invariant Without(view.CurrentMembers(), todo, o) == view.CurrentMembers()
        invariant forall i :: i in IndicesOf(f) - todo ==>
                    EntriesAre(view.CurrentMembers(), i, IndexValueOf(view.CurrentFields(), indices[i], o), o)
        invariant old(view.readValues) <= view.readValues
        invariant forall i :: i in IndicesOf(f) - todo ==>
                  Walked(view.readValues + view.Cached(), view.CurrentFields(), indices[i], o)
        invariant forall m :: m in Changed(view) ==> m.index.fieldId in indices
        decreases todo
      {
        ghost var some := AnElement(todo);
        var i :| i in todo;
        ghost var known, members := view.readValues, view.CurrentMembers();
        var value := CalcCurIndexValue(view, indices[i], o);
        MoreReads(view, known, IndicesOf(f) - todo, o);
        if value.Some? {
          NotEntered(members, todo, i, value.value, o);
          r := view.IndexAdd(IndexId(i, value.value), o);
          if r.Thrown? {
            return;
          }
        }
        Entered(members, view.CurrentMembers(), IndicesOf(f), todo, i, value, o);
        todo := todo - {i};
      }
      r := Ok(());
    }

    lemma NotEntered(members: set<Membership>, todo: set<FieldId>, i: FieldId, value: Bytes, o: ObjectId)
      requires i in todo && Without(members, todo, o) == members
      ensures Membership(IndexId(i, value), o) !in members
    {
    }

    lemma Entered(before: set<Membership>, after: set<Membership>, all: set<FieldId>, todo: set<FieldId>, i: FieldId,
                  value: Option<Bytes>, o: ObjectId)
      requires i in todo && todo <= all
      requires Without(before, todo, o) == before && after == before + EntryOf(i, value, o)
      ensures Without(after, all, o) == Without(before, all, o)
      ensures Without(after, todo - {i}, o) == after
      ensures EntriesAre(after, i, value, o)
      ensures forall j, v :: j != i && EntriesAre(before, j, v, o) ==> EntriesAre(after, j, v, o)
    {
    }

    /** An index over the field was walked before the write; if none of its fields was in a cache then,
        the walk was over the snapshot itself. */
    lemma WalkedBase(base: map<ObjectFieldId, Bytes>, index: seq<FieldId>, o: ObjectId, known: set<ObjectFieldId>,
                     cached: set<ObjectFieldId>, current: map<ObjectFieldId, Bytes>)
      requires Walked(known + cached, current, index, o)
      requires (exists f :: f in index && ObjectFieldId(o, f) in cached) ==> Walked(known, base, index, o)
      requires forall k :: k !in cached ==> Lookup(current, k) == Lookup(base, k)
      ensures Walked(known, base, index, o)
    {
    }

    lemma StaysRecorded(view: View, f: FieldId, o: ObjectId, known: set<ObjectFieldId>, cached: set<ObjectFieldId>,
                        current: map<ObjectFieldId, Bytes>, data: Option<Bytes>)
      requires known <= view.readValues
      requires forall i, p, g :: i in indices && g in indices[i] && ObjectFieldId(p, g) in cached ==>
                 Walked(known, view.base.fields, indices[i], p) && Walked(known + cached, current, indices[i], p)
      requires forall k :: k !in cached ==> Lookup(current, k) == Lookup(view.base.fields, k)
      requires forall i :: i in IndicesOf(f) ==> Walked(known + cached, current, indices[i], o)
      requires forall i :: i in IndicesOf(f) ==>
                 Walked(view.readValues + view.Cached(), view.CurrentFields(), indices[i], o)
      requires cached - {ObjectFieldId(o, f)} <= view.Cached() <= cached + {ObjectFieldId(o, f)}
      requires view.CurrentFields() == Updated(current, map[ObjectFieldId(o, f) := data])
      ensures Recorded(view)
    {
      hide View.CurrentFields, View.Cached, Walked, Updated;
      forall i, p, g | i in indices && g in indices[i] && ObjectFieldId(p, g) in view.Cached()
        ensures RecordedAt(view, indices[i], p)
      {
        var index := indices[i];
        if p == o && i in IndicesOf(f) {
          WalkedBase(view.base.fields, index, o, known, cached, current);
          WalkedElsewhere(known, view.readValues, view.base.fields, view.base.fields, index, o);
        } else {
          assert ObjectFieldId(p, g) in cached;
          WalkedElsewhere(known, view.readValues, view.base.fields, view.base.fields, index, p);
          WalkedElsewhere(known + cached, view.readValues + view.Cached(), current, view.CurrentFields(), index, p);
        }
      }
    }

    /** What was walked stays walked when more is read. */
    lemma WalkedStay(view: View, known: set<ObjectFieldId>)
      requires known <= view.readValues
      ensures forall i, p :: i in indices && Walked(known, view.base.fields, indices[i], p) ==>
                Walked(view.readValues, view.base.fields, indices[i], p)
      ensures forall i, p :: i in indices && Walked(known + view.Cached(), view.CurrentFields(), indices[i], p) ==>
                Walked(view.readValues + view.Cached(), view.CurrentFields(), indices[i], p)
    {
    }

    lemma MoreReadsStayRecorded(view: View, known: set<ObjectFieldId>)
      requires known <= view.readValues
      requires forall i, p, g :: i in indices && g in indices[i] && ObjectFieldId(p, g) in view.Cached() ==>
                 Walked(known, view.base.fields, indices[i], p)
                 && Walked(known + view.Cached(), view.CurrentFields(), indices[i], p)
      ensures Recorded(view)
    {
    }

    /** Once out of its entries, an object is in step with the old field values exactly if it had none. */
    lemma LeftEntries(db: Database, f: FieldId, o: ObjectId)
      requires Indexed(db)
      ensures Indexed(Database(db.fields, Without(db.members, IndicesOf(f), o)))
              <==> forall i :: i in IndicesOf(f) ==> IndexValueOf(db.fields, indices[i], o).None?
    {
      hide IndexValueOf;
      var left := Database(db.fields, Without(db.members, IndicesOf(f), o));
      if Indexed(left) {
        forall i | i in IndicesOf(f)
          ensures IndexValueOf(db.fields, indices[i], o).None?
        {
          assert IndexedAt(left, i, o);
          assert forall v :: Membership(IndexId(i, v), o) !in left.members;
          assert forall v :: IndexValueOf(db.fields, indices[i], o) != Some(v);
        }
      } else {
        var i, p :| i in indices && !IndexedAt(left, i, p);
        assert IndexedAt(db, i, p);
      }
    }

    /** New entries for the written object, the old ones for all others. */
    lemma Reindexed(db: Database, after: Database, f: FieldId, o: ObjectId, data: Option<Bytes>)
      requires Indexed(db) && after.fields == Updated(db.fields, map[ObjectFieldId(o, f) := data])
      requires Without(after.members, IndicesOf(f), o) == Without(db.members, IndicesOf(f), o)
      requires forall i :: i in IndicesOf(f) ==>
                 EntriesAre(after.members, i, IndexValueOf(after.fields, indices[i], o), o)
      ensures Indexed(after)
    {
      hide IndexValueOf, Updated;
      forall i, p | i in indices
        ensures IndexedAt(after, i, p)
      {
        if !(p == o && i in IndicesOf(f)) {
          SameValues(db.fields, after.fields, indices[i], p);
          assert IndexedAt(db, i, p);
          assert forall v :: Membership(IndexId(i, v), p) in after.members
                             <==> Membership(IndexId(i, v), p) in Without(after.members, IndicesOf(f), o);
          assert forall v :: Membership(IndexId(i, v), p) in db.members
                             <==> Membership(IndexId(i, v), p) in Without(db.members, IndicesOf(f), o);
        }
      }
    }

    /** Assign a field, or delete it, and move the object to its new index entries. In a transaction this
        keeps every index in step. A refused assignment leaves the fields alone but not the indices: the
        object has already left its old entries, so indices stay in step exactly if it had none. */
    method SetFieldValue(view: View, f: FieldId, o: ObjectId, data: Option<Bytes>) returns (r: Result<()>)
      requires Sound(view) && NO_OBJECT < o
      modifies view
      ensures view.Valid() && old(view.readValues) <= view.readValues
      ensures old(view.deleteCache) <= view.deleteCache <= old(view.deleteCache) + {ObjectFieldId(o, f)}
      ensures view.Cached() <= old(view.Cached()) + {ObjectFieldId(o, f)}
      ensures r.Ok? <==> view.allowWrites && ObjectFieldId(o, f) !in old(view.deleteCache)
      ensures r.Ok? ==> view.CurrentFields() == Updated(old(view.CurrentFields()), map[ObjectFieldId(o, f) := data])
      ensures r.Thrown? ==> view.CurrentFields() == old(view.CurrentFields())
      ensures r.Thrown? ==> view.CurrentMembers() == Without(old(view.CurrentMembers()), IndicesOf(f), o)
      ensures view.allowWrites ==> Sound(view)
      ensures r.Thrown? ==>
                (Indexed(view.Current()) <==>
                 forall i :: i in IndicesOf(f) ==> IndexValueOf(old(view.CurrentFields()), indices[i], o).None?)
    {
      assert forall k :: k !in view.Cached() ==> Lookup(view.CurrentFields(), k) == Lookup(view.base.fields, k);
      assert ObjectFieldId(o, f) in view.deleteCache ==> ObjectFieldId(o, f) !in view.CurrentFields();
      hide View.CurrentMembers, View.CurrentFields, View.Cached, View.IndexCachesValid, View.FieldCachesValid;
      hide Walked, IndexValueOf, Updated, Without;
      ghost var db, cached := view.Current(), view.Cached();
      r := RemoveFromIndices(view, f, o);
      if r.Thrown? {
        return;
      }
      ghost var known := view.readValues;
      WalkedStay(view, old(view.readValues));
      r := view.SetField(ObjectFieldId(o, f), data);
      if r.Thrown? {
        LeftEntries(db, f, o);
        MoreReadsStayRecorded(view, known);
        return;
      }
      WithoutTwice(db.members, IndicesOf(f), o);
      r := AddToIndices(view, f, o);
      StaysRecorded(view, f, o, known, cached, db.fields, data);
      Reindexed(db, view.Current(), f, o, data);
    }

    /** Delete every field of an object, all of them or, if a field was deleted before, some. In a transaction
        the indices stay in step either way. A read-only view refuses the first field it comes to, when the
        object has already left the indices over that field. */
    method Delete(view: View, fields: set<FieldId>, existsField: FieldId, o: ObjectId) returns (r: Result<()>)
      requires Sound(view) && NO_OBJECT < o && existsField in fields
      modifies view
      ensures view.Valid() && (view.allowWrites ==> Sound(view)) && old(view.readValues) <= view.readValues
      ensures r.Ok? <==> && view.allowWrites && ObjectFieldId(o, existsField) in old(view.CurrentFields())
                         && forall f :: f in fields ==> ObjectFieldId(o, f) !in old(view.deleteCache)
      ensures r.Ok? ==> forall k :: Lookup(view.CurrentFields(), k)
                                    == if k.objId == o && k.fieldId in fields then None
                                       else Lookup(old(view.CurrentFields()), k)
      ensures !view.allowWrites ==> view.CurrentFields() == old(view.CurrentFields())
      ensures !view.allowWrites ==>
                if ObjectFieldId(o, existsField) !in old(view.CurrentFields()) then
                  view.CurrentMembers() == old(view.CurrentMembers())
                else
                  exists f ::
                    f in fields && view.CurrentMembers() == Without(old(view.CurrentMembers()), IndicesOf(f), o)
    {
      hide View.CurrentFields, View.CurrentMembers, View.IndexCachesValid, Indexed, Updated;
      ghost var known := view.readValues;
      var data := view.GetField(ObjectFieldId(o, existsField));
      MoreReadsStayRecorded(view, known);
      if data.None? {
        return Thrown;
      }
      var todo := fields;
      while todo != {}
        invariant todo <= fields && Sound(view) && old(view.readValues) <= view.readValues
        invariant view.allowWrites || (todo == fields && view.Current() == old(view.Current()))
        invariant forall f :: f in todo ==>
                    (ObjectFieldId(o, f) in view.deleteCache <==> ObjectFieldId(o, f) in old(view.deleteCache))
        invariant forall f :: f in fields && f !in todo ==> ObjectFieldId(o, f) !in old(view.deleteCache)
        invariant forall k :: Lookup(view.CurrentFields(), k)
                              == if k.objId == o && k.fieldId in fields - todo then None
                                 else Lookup(old(view.CurrentFields()), k)
        decreases todo
      {
        ghost var some := AnElement(todo);
        var f :| f in todo;
        r := SetFieldValue(view, f, o, None);
        if r.Thrown? {
          return;
        }
        todo := todo - {f};
      }
      r := Ok(());
    }

    /** A view that has changed nothing yet is sound over any snapshot whose indices are in step. */
    lemma FreshViewIsSound(view: View)
      requires view.Valid() && Indexed(view.base) && view.Current() == view.base
      requires view.Cached() == {} && Changed(view) == {}
      ensures Sound(view)
    {
    }

    /** Either the view touched the index entry of the object, and then it read enough to settle the entry
        before and after, or nobody in this transaction changes it. */
    lemma ValueAtCommit(view: View, db: Database, after: Database, i: FieldId, o: ObjectId)
      requires Sound(view) && i in indices
      requires forall k :: k in view.readValues ==> Lookup(db.fields, k) == Lookup(view.base.fields, k)
      requires after.fields == Updated(db.fields, view.ExtractWrites())
      ensures var (base, current) := (view.base.fields, view.CurrentFields());
              || (&& IndexValueOf(db.fields, indices[i], o) == IndexValueOf(base, indices[i], o)
                  && IndexValueOf(after.fields, indices[i], o) == IndexValueOf(current, indices[i], o))
              || (&& IndexValueOf(current, indices[i], o) == IndexValueOf(base, indices[i], o)
                  && IndexValueOf(after.fields, indices[i], o) == IndexValueOf(db.fields, indices[i], o))
    {
      hide IndexValueOf, Updated, Overlay, Walked, View.IndexCachesValid, Indexed;
      var index := indices[i];
      if exists f :: f in index && ObjectFieldId(o, f) in view.Cached() {
        assert RecordedAt(view, index, o);
        WalkedSettles(this, view.readValues, view.base.fields, db.fields, index, o);
        WalkedSettles(this, view.readValues + view.Cached(), view.CurrentFields(), after.fields, index, o);
      } else {
        SameValues(view.CurrentFields(), view.base.fields, index, o);
        SameValues(after.fields, db.fields, index, o);
      }
    }

    /** A changed index entry comes with a write to one of the index's fields of the same object. */
    lemma ChangesComeWithWrites(view: View, m: Membership)
      requires Sound(view) && Indexed(view.base) && m in Changed(view)
      ensures m.index.fieldId in indices
      ensures exists k :: k in view.Cached() && k.objId == m.objId && k.fieldId in indices[m.index.fieldId]
    {
      hide IndexValueOf, Overlay, Walked;
      var i, o := m.index.fieldId, m.objId;
      assert m == Membership(IndexId(i, m.index.indexValue), o);
      assert IndexedAt(view.base, i, o) && IndexedAt(view.Current(), i, o);
      if forall f :: f in indices[i] ==> ObjectFieldId(o, f) !in view.Cached() {
        SameValues(view.CurrentFields(), view.base.fields, indices[i], o);
      } else {
        var f :| f in indices[i] && ObjectFieldId(o, f) in view.Cached();
        assert ObjectFieldId(o, f).objId == m.objId && ObjectFieldId(o, f).fieldId == f;
      }
    }

    lemma EntryAtCommit(view: View, db: Database, after: Database, i: FieldId, o: ObjectId)
      requires Sound(view) && Indexed(view.base) && Indexed(db) && i in indices
      requires forall k :: k in view.readValues ==> Lookup(db.fields, k) == Lookup(view.base.fields, k)
      requires after.fields == Updated(db.fields, view.ExtractWrites())
      requires after.members == db.members + Pairs(view.setAdds) - Pairs(view.setRemoves)
      ensures IndexedAt(after, i, o)
      ensures forall v :: Membership(IndexId(i, v), o) in Pairs(view.setAdds) ==>
                Membership(IndexId(i, v), o) !in db.members
      ensures forall v :: Membership(IndexId(i, v), o) in Pairs(view.setRemoves) ==>
                Membership(IndexId(i, v), o) in db.members
      ensures forall v, w ::
                Membership(IndexId(i, v), o) in Pairs(view.setAdds)
                && Membership(IndexId(i, w), o) in Pairs(view.setAdds) ==>
                v == w
      ensures forall v, w ::
                Membership(IndexId(i, v), o) in Pairs(view.setAdds) && Membership(IndexId(i, w), o) in db.members ==>
                Membership(IndexId(i, w), o) in Pairs(view.setRemoves)
    {
      ValueAtCommit(view, db, after, i, o);
      assert IndexedAt(view.base, i, o) && IndexedAt(view.Current(), i, o) && IndexedAt(db, i, o);
      hide IndexValueOf, Updated, View.FieldCachesValid, Indexed, Recorded;
    }

    /** Every object the view moves in an index was filed in its snapshot as it is in the database. */
    ghost predicate MovesTrueEntries(view: View, db: Database)
      reads view
    {
      forall m :: m in Changed(view) ==>
        m.index.fieldId in indices && SameEntryValue(view, db, m.index.fieldId, m.objId)
    }

    ghost predicate SameEntryValue(view: View, db: Database, i: FieldId, o: ObjectId)
      requires i in indices
    {
      IndexValueOf(view.base.fields, indices[i], o) == IndexValueOf(db.fields, indices[i], o)
    }

    lemma OneEntry(db: Database, i: FieldId, o: ObjectId)
      requires Indexed(db) && i in indices
      ensures forall m :: m in db.members && m.index.fieldId == i && m.objId == o ==>
                IndexValueOf(db.fields, indices[i], o) == Some(m.index.indexValue)
      ensures forall v :: IndexValueOf(db.fields, indices[i], o) == Some(v) ==>
                Membership(IndexId(i, v), o) in db.members
    {
      hide IndexValueOf;
      assert IndexedAt(db, i, o);
      assert forall m: Membership :: m == Membership(IndexId(m.index.fieldId, m.index.indexValue), m.objId);
    }

    /** The index changes of a sound view agree with a database exactly if all entries it moves were true. */
    lemma ConsistentExactly(view: View, db: Database)
      requires Sound(view) && Indexed(view.base) && Indexed(db)
      ensures Consistent(db.members, view.setAdds, view.setRemoves) <==> MovesTrueEntries(view, db)
    {
      hide IndexValueOf, View.FieldCachesValid, Recorded;
      assert forall m :: m in Changed(view) ==> m.index.fieldId in indices;
      forall m | m in Changed(view)
        ensures MovesTrueEntries(view, db) ==> ChangeAgrees(view, db, m)
        ensures Consistent(db.members, view.setAdds, view.setRemoves) ==>
                  SameEntryValue(view, db, m.index.fieldId, m.objId)
      {
        ChangeAgreesExactly(view, db, m);
      }
    }

    ghost predicate ChangeAgrees(view: View, db: Database, m: Membership)
      reads view
    {
      && (m in Pairs(view.setAdds) ==> m !in db.members)
      && (m in Pairs(view.setRemoves) ==> m in db.members)
      && (forall n :: m in Pairs(view.setAdds) && n in Pairs(view.setAdds) && SameEntry(m, n) ==> m == n)
      && (forall n :: m in Pairs(view.setAdds) && n in db.members && SameEntry(m, n) ==> n in Pairs(view.setRemoves))
    }

    lemma ChangeAgreesExactly(view: View, db: Database, m: Membership)
      requires Sound(view) && Indexed(view.base) && Indexed(db) && m in Changed(view)
      ensures SameEntryValue(view, db, m.index.fieldId, m.objId) ==> ChangeAgrees(view, db, m)
      ensures Consistent(db.members, view.setAdds, view.setRemoves) ==>
                SameEntryValue(view, db, m.index.fieldId, m.objId)
    {
      var i, o := m.index.fieldId, m.objId;
      OneEntry(view.base, i, o);
      OneEntry(db, i, o);
      OneEntry(view.Current(), i, o);
      hide IndexValueOf, View.FieldCachesValid, Recorded, Indexed;
    }

    /** A sound transaction commits soundly: over any state that still holds what the view read, its index
        changes are consistent, and afterwards every index is again in step. */
    lemma CommitKeepsIndexed(view: View, db: Database, tid: TransactionId)
      requires Sound(view) && Indexed(view.base) && Indexed(db)
      requires forall k :: k in view.readValues ==> Lookup(db.fields, k) == Lookup(view.base.fields, k)
      ensures Consistent(db.members, view.setAdds, view.setRemoves)
      ensures Indexed(Apply(db, Transaction(tid, view.ExtractWrites(), view.setAdds, view.setRemoves)))
    {
      hide IndexValueOf, Updated, View.FieldCachesValid, View.IndexCachesValid, IndexedAt;
      var after := Apply(db, Transaction(tid, view.ExtractWrites(), view.setAdds, view.setRemoves));
      forall i, o | i in indices
        ensures IndexedAt(after, i, o)
      {
        EntryAtCommit(view, db, after, i, o);
      }
      forall m, n | m in Changed(view)
        ensures m in Pairs(view.setAdds) ==> m !in db.members
        ensures m in Pairs(view.setRemoves) ==> m in db.members
        ensures m in Pairs(view.setAdds) && n in Pairs(view.setAdds) && SameEntry(m, n) ==> m == n
        ensures m in Pairs(view.setAdds) && n in db.members && SameEntry(m, n) ==> n in Pairs(view.setRemoves)
      {
        assert m == Membership(IndexId(m.index.fieldId, m.index.indexValue), m.objId);
        assert n == Membership(IndexId(n.index.fieldId, n.index.indexValue), n.objId);
        EntryAtCommit(view, db, after, m.index.fieldId, m.objId);
      }
    }
  }

  /** Assigning through a read-only view throws, but leaves the object out of the index. */
  method ReadOnlyAssignmentLosesEntry() returns (t: ObjectType, view: View)
    ensures t.Indexed(view.base) && !view.allowWrites
    ensures view.CurrentFields() == view.base.fields && !t.Indexed(view.Current())
  {
    t := ObjectType(map[1 := [1]], values => if |values| == 1 then values[0] else []);
    var base := Database(map[ObjectFieldId(7, 1) := [5]], {Membership(IndexId(1, [5]), 7)});
    view := new View(base, 3, false);
    forall i, o | i in t.indices
      ensures t.IndexedAt(base, i, o)
    {
      assert [1][0] in t.indices[1];
      assert AllPresent(base.fields, [1], o) <==> o == 7;
    }
    t.FreshViewIsSound(view);
    var r := t.SetFieldValue(view, 1, 7, Some([6]));
    assert t.IndexValueOf(base.fields, t.indices[1], 7).Some?;
  }
}
