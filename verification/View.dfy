/** object_database/View.hpp: the reads and writes of one transaction over a snapshot. Writes, deletions and
    index changes are kept in caches laid over the snapshot until they are extracted and sent to the server. */
module Views {
  import opened Common
  import opened OrderedSets
  import opened Database

  /** The objects listed under an index value. */
  function ObjectsIn(members: set<Membership>, i: IndexId): (s: set<ObjectId>)
    ensures forall o :: o in s <==> Membership(i, o) in members
  {
    set m | m in members && m.index == i :: m.objId
  }

  function Listed(m: map<IndexId, set<ObjectId>>, i: IndexId): set<ObjectId> {
    if i in m then m[i] else {}
  }

  function WithListed(m: map<IndexId, set<ObjectId>>, i: IndexId, o: ObjectId): (m': map<IndexId, set<ObjectId>>)
    ensures Pairs(m') == Pairs(m) + {Membership(i, o)}
  {
    m[i := Listed(m, i) + {o}]
  }

  function WithoutListed(m: map<IndexId, set<ObjectId>>, i: IndexId, o: ObjectId): (m': map<IndexId, set<ObjectId>>)
    ensures Pairs(m') == Pairs(m) - {Membership(i, o)}
  {
    if i in m then m[i := m[i] - {o}] else m
  }

  /** `r` is the element of `s` that follows `o`, or NO_OBJECT if there is none. */
  ghost predicate Follows(s: set<ObjectId>, o: ObjectId, r: ObjectId) {
    if r == NO_OBJECT then forall j :: j in s ==> j <= o
    else r in s && o < r && forall j :: j in s && o < j ==> r <= j
  }

  ghost predicate Ascending(s: seq<int>) {
    forall a, b :: 0 <= a < b < |s| ==> s[a] < s[b]
  }

  ghost predicate ProperIds(members: set<Membership>) {
    forall m :: m in members ==> NO_OBJECT < m.objId
  }

  /** Written values hide the snapshot's, and deleted keys are gone. */
  function Overlay(base: map<ObjectFieldId, Bytes>, deleted: set<ObjectFieldId>, written: map<ObjectFieldId,
                   Bytes>): (r: map<ObjectFieldId, Bytes>)
    ensures forall k ::
              Lookup(r, k) == if k in written then Some(written[k]) else if k in deleted then None else Lookup(base, k)
  {
    base - deleted + written
  }

  lemma OverlayWrite(base: map<ObjectFieldId, Bytes>, deleted: set<ObjectFieldId>, written: map<ObjectFieldId, Bytes>,
                     k: ObjectFieldId, value: Bytes)
    ensures Overlay(base, deleted, written[k := value])
            == Updated(Overlay(base, deleted, written), map[k := Some(value)])
  {
  }

  lemma OverlayDelete(base: map<ObjectFieldId, Bytes>, deleted: set<ObjectFieldId>, written: map<ObjectFieldId, Bytes>,
                      k: ObjectFieldId, mark: bool)
    requires mark || k in deleted || k !in base
    ensures Overlay(base, if mark then deleted + {k} else deleted, written - {k})
            == Updated(Overlay(base, deleted, written), map[k := None])
  {
    hide Overlay, Updated;
    SameLookups(Overlay(base, if mark then deleted + {k} else deleted, written - {k}),
                Updated(Overlay(base, deleted, written), map[k := None]));
  }

  class View {
    /** The snapshot, which the reference taken by the view keeps from changing. */
    const base: Database
    const tid: TransactionId
    const allowWrites: bool

    var readValues: set<ObjectFieldId>
    var setReads: set<IndexId>
    var writeCache: map<ObjectFieldId, Bytes>
    var newWrites: set<ObjectFieldId>
    var deleteCache: set<ObjectFieldId>
    var setAdds: map<IndexId, set<ObjectId>>
    var setRemoves: map<IndexId, set<ObjectId>>

    ghost predicate Valid()
      reads this
    {
      FieldCachesValid() && IndexCachesValid()
    }

    /** No key is both written and deleted, and the new writes are exactly accounted for. */
    ghost predicate FieldCachesValid()
      reads this`writeCache, this`newWrites, this`deleteCache
    {
      && writeCache.Keys !! deleteCache && newWrites !! deleteCache
      && newWrites !! base.fields.Keys
      && writeCache.Keys - base.fields.Keys <= newWrites
      && (!allowWrites ==> writeCache == map[] && deleteCache == {} && newWrites == {})
    }

    ghost predicate IndexCachesValid()
      reads this`setAdds, this`setRemoves
    {
      && Pairs(setAdds) !! base.members && Pairs(setRemoves) <= base.members
      && ProperIds(base.members) && ProperIds(Pairs(setAdds))
    }

    /** The database as the view shows it. */
    ghost function Current(): Database
      reads this`writeCache, this`deleteCache, this`setAdds, this`setRemoves
    {
      Database(CurrentFields(), CurrentMembers())
    }

    ghost function CurrentFields(): map<ObjectFieldId, Bytes>
      reads this`writeCache, this`deleteCache
    {
      Overlay(base.fields, deleteCache, writeCache)
    }

    ghost function CurrentMembers(): set<Membership>
      reads this`setAdds, this`setRemoves
    {
      base.members - Pairs(setRemoves) + Pairs(setAdds)
    }

    /** The keys answered from the caches, which are not recorded as read. */
    ghost function Cached(): set<ObjectFieldId>
      reads this`writeCache, this`deleteCache
    {
      writeCache.Keys + deleteCache
    }

    constructor (snapshot: Database, tid: TransactionId, allowWrites: bool)
      requires ProperIds(snapshot.members)
      ensures Valid() && Current() == snapshot && Cached() == {}
      ensures base == snapshot && this.tid == tid && this.allowWrites == allowWrites
      ensures readValues == {} && setReads == {}
    {
      base, this.tid, this.allowWrites := snapshot, tid, allowWrites;
      readValues, setReads := {}, {};
      writeCache, newWrites, deleteCache := map[], {}, {};
      setAdds, setRemoves := map[], map[];
    }

    method GetField(k: ObjectFieldId, recordAccess: bool := true) returns (r: Option<Bytes>)
      modifies this`readValues
      ensures FieldCachesValid() ==> r == Lookup(CurrentFields(), k)
      ensures readValues == if recordAccess && k !in Cached() then old(readValues) + {k} else old(readValues)
    {
      if k in deleteCache {
        return None;
      }
      if k in writeCache {
        return Some(writeCache[k]);
      }
      r := Lookup(base.fields, k);
      if recordAccess {
        readValues := readValues + {k};
      }
    }

    method FieldExists(k: ObjectFieldId, recordAccess: bool := true) returns (r: bool)
      modifies this`readValues
      ensures FieldCachesValid() ==> (r <==> k in CurrentFields())
      ensures readValues == if recordAccess && k !in Cached() then old(readValues) + {k} else old(readValues)
    {
      if k in deleteCache {
        return false;
      }
      if k in writeCache {
        return true;
      }
      r := k in base.fields;
      if recordAccess {
        readValues := readValues + {k};
      }
    }

    /** Write a value, or delete it if there is none. A deleted field cannot be set again. */
    method SetField(k: ObjectFieldId, data: Option<Bytes>) returns (r: Result<()>)
      requires Valid()
      modifies this`writeCache, this`newWrites, this`deleteCache, this`readValues
      ensures Valid() && readValues == old(readValues)
      ensures r.Ok? <==> allowWrites && k !in old(deleteCache)
      ensures r.Ok? ==> CurrentFields() == Updated(old(CurrentFields()), map[k := data])
      ensures r.Ok? ==> old(Cached()) - {k} <= Cached() <= old(Cached()) + {k}
      ensures r.Thrown? ==> CurrentFields() == old(CurrentFields()) && Cached() == old(Cached())
      ensures old(deleteCache) <= deleteCache <= old(deleteCache) + {k}
    {
      hide Overlay, Updated, IndexCachesValid;
      if !allowWrites || k in deleteCache {
        return Thrown;
      }
      match data {
        case Some(value) =>
          var existsAlready := FieldExists(k, false);
          if !existsAlready {
            newWrites := newWrites + {k};
          }
          OverlayWrite(base.fields, deleteCache, writeCache, k, value);
          writeCache := writeCache[k := value];
        case None =>
          var wasNewWrite := k in newWrites;
          OverlayDelete(base.fields, deleteCache, writeCache, k, !wasNewWrite);
          writeCache := writeCache - {k};
          if !wasNewWrite {
            deleteCache := deleteCache + {k};
          }
      }
      r := Ok(());
    }

    /** Refused only for an object the snapshot lists and the view still shows. */
    method IndexAdd(i: IndexId, o: ObjectId) returns (r: Result<()>)
      requires Valid() && NO_OBJECT < o
      modifies this`setAdds, this`setRemoves
      ensures Valid()
      ensures r.Thrown? <==> Membership(i, o) in base.members && Membership(i, o) in old(CurrentMembers())
      ensures r.Ok? ==> CurrentMembers() == old(CurrentMembers()) + {Membership(i, o)}
      ensures r.Thrown? ==> CurrentMembers() == old(CurrentMembers())
      ensures Changed(this) <= old(Changed(this)) + {Membership(i, o)}
    {
      if o in Listed(setRemoves, i) {
        assert Membership(i, o) in Pairs(setRemoves);
        setRemoves := WithoutListed(setRemoves, i, o);
        return Ok(());
      }
      assert Membership(i, o) !in Pairs(setRemoves);
      if Membership(i, o) in base.members {
        return Thrown;
      }
      setAdds := WithListed(setAdds, i, o);
      r := Ok(());
    }

    /** Refused only for an object neither the snapshot nor the view lists. */
    method IndexRemove(i: IndexId, o: ObjectId) returns (r: Result<()>)
      requires Valid()
      modifies this`setAdds, this`setRemoves
      ensures Valid()
      ensures r.Thrown? <==> Membership(i, o) !in base.members && Membership(i, o) !in old(CurrentMembers())
      ensures r.Ok? ==> CurrentMembers() == old(CurrentMembers()) - {Membership(i, o)}
      ensures r.Thrown? ==> CurrentMembers() == old(CurrentMembers())
      ensures Changed(this) <= old(Changed(this)) + {Membership(i, o)}
    {
      if o in Listed(setAdds, i) {
        assert Membership(i, o) in Pairs(setAdds);
        setAdds := WithoutListed(setAdds, i, o);
        return Ok(());
      }
      assert Membership(i, o) !in Pairs(setAdds);
      if Membership(i, o) !in base.members {
        return Thrown;
      }
      setRemoves := WithListed(setRemoves, i, o);
      r := Ok(());
    }

    /** The first object the view shows under the index value. */
    method IndexLookupFirst(i: IndexId) returns (r: ObjectId)
      requires Valid()
      modifies this`setReads
      ensures setReads == old(setReads) + {i}
      ensures Follows(ObjectsIn(CurrentMembers(), i), NO_OBJECT, r)
    {
      setReads := setReads + {i};
      r := Merged(i, NO_OBJECT);
    }

    method IndexLookupNext(i: IndexId, o: ObjectId) returns (r: ObjectId)
      requires Valid() && NO_OBJECT < o
      modifies this`setReads
      ensures setReads == old(setReads) + {i}
      ensures Follows(ObjectsIn(CurrentMembers(), i), o, r)
    {
      setReads := setReads + {i};
      r := Merged(i, o);
    }

    /** The object after `o` in `s`, or NO_OBJECT. */
    static method After(s: set<ObjectId>, o: ObjectId) returns (r: ObjectId)
      requires NO_OBJECT <= o
      ensures Follows(s, o, r)
    {
      var it := UpperBound(s, o);
      r := if it.Some? then it.value else NO_OBJECT;
    }

    /** Skip removed objects of the snapshot until one comes before the next added object, or none is left. */
    method Merged(i: IndexId, o: ObjectId) returns (r: ObjectId)
      requires Valid() && NO_OBJECT <= o
      ensures Follows(ObjectsIn(CurrentMembers(), i), o, r)
    {
      var present := ObjectsIn(base.members, i);
      var added, removed := Listed(setAdds, i), Listed(setRemoves, i);
      assert forall j :: j in added <==> Membership(i, j) in Pairs(setAdds);
      assert forall j :: j in removed <==> Membership(i, j) in Pairs(setRemoves);
      assert forall j :: j in ObjectsIn(CurrentMembers(), i) <==> (j in present && j !in removed) || j in added;
      hide ObjectsIn, Valid, CurrentMembers, Listed;
      var next := After(present, o);
      var nextAdded := After(added, o);
      while next != NO_OBJECT
        invariant Follows(added, o, nextAdded)
        invariant next != NO_OBJECT ==> next in present && o < next
        invariant forall j :: j in present && o < j && (next == NO_OBJECT || j < next) ==>
                  j in removed && (nextAdded == NO_OBJECT || j < nextAdded)
        decreases if next == NO_OBJECT then {} else set j | j in present && next <= j
      {
        if nextAdded != NO_OBJECT && nextAdded < next {
          return nextAdded;
        }
        if next !in removed {
          return next;
        }
        ghost var skipped := next;
        next := After(present, next);
        assert skipped in (set j | j in present && skipped <= j);
      }
      r := nextAdded;
    }

    /** All objects under an index value, in ascending order and without repeats. */
    method LookupAll(i: IndexId) returns (oids: seq<ObjectId>)
      requires Valid()
      modifies this`setReads
      ensures setReads == old(setReads) + {i}
      ensures Ascending(oids) && forall o :: o in oids <==> Membership(i, o) in CurrentMembers()
    {
      hide CurrentMembers;
      ghost var all := ObjectsIn(CurrentMembers(), i);
      CurrentIdsProper();
      oids := [];
      var oid := IndexLookupFirst(i);
      ghost var last, left := NO_OBJECT, all;
      while oid != NO_OBJECT
        invariant Valid() && CurrentMembers() == old(CurrentMembers()) && setReads == old(setReads) + {i}
        invariant NO_OBJECT <= last && Follows(all, last, oid)
        invariant Ascending(oids) && forall o :: o in oids <==> o in all && o <= last
        invariant forall o :: o in left <==> o in all && last < o
        decreases left
      {
        oids := AppendAscending(oids, oid);
        left := set o | o in all && oid < o;
        last := oid;
        oid := IndexLookupNext(i, oid);
      }
    }

    /** The only object under an index value; an error if there are several. */
    method LookupUnique(i: IndexId) returns (r: Result<Option<ObjectId>>)
      requires Valid()
      modifies this`setReads
      ensures setReads == old(setReads) + {i}
      ensures r == Ok(None) <==> ObjectsIn(CurrentMembers(), i) == {}
      ensures forall o :: r == Ok(Some(o)) <==> ObjectsIn(CurrentMembers(), i) == {o}
    {
      CurrentIdsProper();
      hide CurrentMembers;
      var first := IndexLookupFirst(i);
      ghost var all := ObjectsIn(CurrentMembers(), i);
      if first == NO_OBJECT {
        return Ok(None);
      }
      var second := IndexLookupNext(i, first);
      r := if second == NO_OBJECT then Ok(Some(first)) else Thrown;
      forall o
        ensures all == {o} <==> second == NO_OBJECT && o == first
      {
        assert first in all && (second != NO_OBJECT ==> second in all);
        if second == NO_OBJECT {
          assert forall j :: j in all ==> j == first;
          assert all == {first};
        }
      }
    }

    lemma CurrentIdsProper()
      requires IndexCachesValid()
      ensures ProperIds(CurrentMembers())
    {
    }

    /** What the transaction changes in the fields. */
    function ExtractWrites(): (w: map<ObjectFieldId, Option<Bytes>>)
      reads this`writeCache, this`deleteCache
      ensures w.Keys == writeCache.Keys + deleteCache
      ensures forall k :: k in w ==> w[k] == if k in deleteCache then None else Some(writeCache[k])
    {
      map k | k in writeCache.Keys + deleteCache :: if k in deleteCache then None else Some(writeCache[k])
    }

    /** Sending what was extracted is sending what the view shows: applied to the snapshot, it gives
        exactly the database the view reads. */
    lemma ExtractedIsCurrent(number: TransactionId)
      requires Valid()
      ensures Apply(base, Transaction(number, ExtractWrites(), setAdds, setRemoves)) == Current()
    {
      var after := Apply(base, Transaction(number, ExtractWrites(), setAdds, setRemoves));
      assert after.members == CurrentMembers();
      forall k
        ensures Lookup(after.fields, k) == Lookup(CurrentFields(), k)
      {
      }
      SameLookups(after.fields, CurrentFields());
    }
  }

  /** The memberships a view changes. */
  ghost function Changed(v: View): set<Membership>
    reads v`setAdds, v`setRemoves
  {
    Pairs(v.setAdds) + Pairs(v.setRemoves)
  }

  function AppendAscending(s: seq<int>, x: int): (r: seq<int>)
    requires Ascending(s) && forall y :: y in s ==> y < x
    ensures Ascending(r) && forall y :: y in r <==> y in s || y == x
  {
    assert forall a :: 0 <= a < |s| ==> s[a] in s;
    s + [x]
  }

  lemma SameLookups<K, V>(a: map<K, V>, b: map<K, V>)
    requires forall k :: Lookup(a, k) == Lookup(b, k)
    ensures a == b
  {
    forall k
      ensures k in a <==> k in b
      ensures k in a ==> a[k] == b[k]
    {
      assert Lookup(a, k) == Lookup(b, k);
    }
  }
}
