/** object_database/VersionedObjects.hpp: the versioned fields and indices of one client,
    and the two work queues that drive their garbage collection. */
module AllVersionedObjects {
  import opened Common
  import opened OrderedSets
  import opened VersionHistory
  import opened VersionedIdSets
  import opened MultiTypeObjects

  class VersionedObjects {
    var fieldToVersionedObjects: map<FieldId, VersionedObjectsOfMultiType>
    var indexToVersionedIdSets: map<IndexId, VersionedIdSet>
    var fieldsNeedingCheck: set<(TransactionId, FieldId)>
    var indicesNeedingCheck: set<(TransactionId, IndexId)>

    /** Every store so far has been collected at or below this level. */
    ghost var horizon: TransactionId

    ghost predicate FieldsValid()
      reads this`fieldToVersionedObjects, this`fieldsNeedingCheck, this`horizon, fieldToVersionedObjects.Values
    {
      && (forall f, g :: f in fieldToVersionedObjects && g in fieldToVersionedObjects && f != g ==>
            fieldToVersionedObjects[f] != fieldToVersionedObjects[g])
      && (forall f :: f in fieldToVersionedObjects ==>
            fieldToVersionedObjects[f].Valid() && fieldToVersionedObjects[f].guaranteedLowestId <= horizon)
      && (forall e :: e in fieldsNeedingCheck ==> e.1 in fieldToVersionedObjects)
      && NO_TRANSACTION <= horizon
    }

    /** The id sets are valid, and every event is due to be compacted once the horizon passes it. */
    ghost predicate IndicesValid()
      reads this`indexToVersionedIdSets, this`indicesNeedingCheck, this`horizon, indexToVersionedIdSets.Values
    {
      SetsValid() && forall i :: Queued(EventTimes(i), indicesNeedingCheck, i)
    }

    ghost predicate SetsValid()
      reads this`indexToVersionedIdSets, this`horizon, indexToVersionedIdSets.Values
    {
      && (forall i, j :: i in indexToVersionedIdSets && j in indexToVersionedIdSets && i != j ==>
            indexToVersionedIdSets[i] != indexToVersionedIdSets[j])
      && (forall i :: i in indexToVersionedIdSets ==>
            var s := indexToVersionedIdSets[i];
            s.Valid() && s.guaranteedLowestId <= horizon && NoneNegative(s.transToObj.Keys))
      && NO_TRANSACTION <= horizon
    }

    ghost predicate Valid()
      reads this, fieldToVersionedObjects.Values, indexToVersionedIdSets.Values
    {
      FieldsValid() && IndicesValid()
    }

    /** The versions recorded for a field. */
    ghost function HistOf(f: FieldId): History
      reads this`fieldToVersionedObjects, fieldToVersionedObjects.Values
    {
      if f in fieldToVersionedObjects then fieldToVersionedObjects[f].hist else map[]
    }

    /** The memberships of an index value over time. */
    ghost function MembersOf(i: IndexId): iset<Moment>
      reads this`indexToVersionedIdSets, indexToVersionedIdSets.Values
    {
      if i in indexToVersionedIdSets then indexToVersionedIdSets[i].members else iset{}
    }

    /** The objects of a field that collection at `t` would check. */
    ghost function DueOf(f: FieldId, t: TransactionId): set<ObjectId>
      reads this`fieldToVersionedObjects, fieldToVersionedObjects.Values
    {
      if f in fieldToVersionedObjects && fieldToVersionedObjects[f].guaranteedLowestId < t
      then DueBelow(fieldToVersionedObjects[f].versionNumbersToCheck, t)
      else {}
    }

    /** The queue of a field. */
    ghost function QueueOf(f: FieldId): CheckQueue
      reads this`fieldToVersionedObjects, fieldToVersionedObjects.Values
    {
      if f in fieldToVersionedObjects then fieldToVersionedObjects[f].versionNumbersToCheck else map[]
    }

    /** Whatever is hidden in any field will be collected. */
    ghost predicate Awaited()
      reads this`fieldToVersionedObjects, this`fieldsNeedingCheck, fieldToVersionedObjects.Values
    {
      forall f :: Awaits(HistOf(f), QueueOf(f), fieldsNeedingCheck, f)
    }

    /** The transactions at which an index changed since it was last compacted. */
    ghost function EventTimes(i: IndexId): set<TransactionId>
      reads this`indexToVersionedIdSets, indexToVersionedIdSets.Values
    {
      if i in indexToVersionedIdSets then indexToVersionedIdSets[i].transToObj.Keys else {}
    }

    /** An index value nobody has or had is not kept. */
    ghost predicate InUse(i: IndexId)
      reads this`indexToVersionedIdSets, indexToVersionedIdSets.Values
    {
      i in indexToVersionedIdSets ==>
        indexToVersionedIdSets[i].transToObj != map[] || indexToVersionedIdSets[i].presentAtLowestId != {}
    }

    constructor ()
      ensures Valid() && Awaited() && fieldToVersionedObjects == map[] && indexToVersionedIdSets == map[]
      ensures horizon == NO_TRANSACTION && fieldsNeedingCheck == {} && indicesNeedingCheck == {}
    {
      fieldToVersionedObjects := map[];
      indexToVersionedIdSets := map[];
      fieldsNeedingCheck := {};
      indicesNeedingCheck := {};
      horizon := NO_TRANSACTION;
    }

    /** The store of a field, created on first use. */
    method VersionedObjectsForFieldId(f: FieldId) returns (objs: VersionedObjectsOfMultiType)
      requires FieldsValid()
      modifies this`fieldToVersionedObjects
      ensures FieldsValid()
      ensures f in fieldToVersionedObjects && fieldToVersionedObjects[f] == objs
      ensures fieldToVersionedObjects == old(fieldToVersionedObjects)[f := objs]
      ensures objs in old(fieldToVersionedObjects.Values) || fresh(objs)
      ensures fieldToVersionedObjects.Values <= old(fieldToVersionedObjects.Values) + {objs}
      ensures forall g :: HistOf(g) == old(HistOf(g)) && QueueOf(g) == old(QueueOf(g))
    {
      if f !in fieldToVersionedObjects {
        objs := new VersionedObjectsOfMultiType();
        fieldToVersionedObjects := fieldToVersionedObjects[f := objs];
      } else {
        objs := fieldToVersionedObjects[f];
        assert objs in fieldToVersionedObjects.Values;
      }
    }

    method SerializedObjectDataAtTid(o: ObjectId, f: FieldId, tid: TransactionId) returns (r: Option<Bytes>)
      requires FieldsValid()
      modifies this`fieldToVersionedObjects
      ensures FieldsValid()
      ensures fresh(fieldToVersionedObjects.Values - old(fieldToVersionedObjects.Values))
      ensures forall g :: HistOf(g) == old(HistOf(g))
      ensures horizon <= tid ==> r == ReadAt(HistOf(f), o, tid)
    {
      var objs := VersionedObjectsForFieldId(f);
      r := objs.SerializedObjectDataAtTid(o, tid);
    }

    method AddObjectVersion(f: FieldId, o: ObjectId, tid: TransactionId, data: Bytes) returns (added: bool)
      requires FieldsValid() && 0 <= tid
      modifies this`fieldToVersionedObjects, this`fieldsNeedingCheck, fieldToVersionedObjects.Values
      ensures FieldsValid()
      ensures fresh(fieldToVersionedObjects.Values - old(fieldToVersionedObjects.Values))
      ensures forall g :: g != f ==> HistOf(g) == old(HistOf(g))
      ensures horizon <= tid ==> HistOf(f) == WithValue(old(HistOf(f)), o, tid, data)
      ensures fieldsNeedingCheck == old(fieldsNeedingCheck) + {(tid, f)}
      ensures old(Awaited()) && horizon <= tid ==> Awaited()
    {
      hide VersionedObjectsOfMultiType.Valid, WithValue, IsQueued, ComesToBeHidden, Awaits;
      var objs := VersionedObjectsForFieldId(f);
      fieldsNeedingCheck := fieldsNeedingCheck + {(tid, f)};
      added := objs.Add(o, tid, data);
      if old(Awaited()) && horizon <= tid {
        forall g
          ensures Awaits(HistOf(g), QueueOf(g), fieldsNeedingCheck, g)
        {
          if g == f {
            ValueAwaits(old(HistOf(f)), old(QueueOf(f)), QueueOf(f), old(fieldsNeedingCheck), f, o, tid, data);
          } else {
            OtherFieldsAwait(old(HistOf(g)), old(QueueOf(g)), old(fieldsNeedingCheck), (tid, f), g);
          }
        }
      }
    }

    method MarkObjectVersionDeleted(f: FieldId, o: ObjectId, tid: TransactionId) returns (done: bool)
      requires FieldsValid() && 0 <= tid
      modifies this`fieldToVersionedObjects, this`fieldsNeedingCheck, fieldToVersionedObjects.Values
      ensures FieldsValid()
      ensures fresh(fieldToVersionedObjects.Values - old(fieldToVersionedObjects.Values))
      ensures forall g :: g != f ==> HistOf(g) == old(HistOf(g))
      ensures horizon <= tid ==>
                HistOf(f)
                == if CanDelete(old(HistOf(f)), o, tid) then WithDeletion(old(HistOf(f)), o, tid) else old(HistOf(f))
      ensures fieldsNeedingCheck == old(fieldsNeedingCheck) + {(tid, f)}
      ensures old(Awaited()) && horizon <= tid ==> Awaited()
    {
      hide VersionedObjectsOfMultiType.Valid, WithDeletion, CanDelete, IsQueued, ComesToBeHidden, Awaits;
      var objs := VersionedObjectsForFieldId(f);
      fieldsNeedingCheck := fieldsNeedingCheck + {(tid, f)};
      done := objs.MarkDeleted(o, tid);
      if old(Awaited()) && horizon <= tid {
        forall g
          ensures Awaits(HistOf(g), QueueOf(g), fieldsNeedingCheck, g)
        {
          if g == f {
            DeletionAwaits(old(HistOf(f)), old(QueueOf(f)), QueueOf(f), old(fieldsNeedingCheck), f, o, tid);
          } else {
            OtherFieldsAwait(old(HistOf(g)), old(QueueOf(g)), old(fieldsNeedingCheck), (tid, f), g);
          }
        }
      }
    }

    /** The id set of an index value, created empty on first use. */
    method VersionedIdSetFor(i: IndexId) returns (s: VersionedIdSet)
      requires SetsValid()
      modifies this`indexToVersionedIdSets
      ensures SetsValid()
      ensures i in indexToVersionedIdSets && indexToVersionedIdSets[i] == s
      ensures indexToVersionedIdSets == old(indexToVersionedIdSets)[i := s]
      ensures s in old(indexToVersionedIdSets.Values) || fresh(s)
      ensures indexToVersionedIdSets.Values <= old(indexToVersionedIdSets.Values) + {s}
      ensures forall j :: MembersOf(j) == old(MembersOf(j)) && EventTimes(j) == old(EventTimes(j))
      ensures forall j :: j != i && old(InUse(j)) ==> InUse(j)
    {
      if i !in indexToVersionedIdSets {
        s := new VersionedIdSet();
        indexToVersionedIdSets := indexToVersionedIdSets[i := s];
      } else {
        s := indexToVersionedIdSets[i];
        assert s in indexToVersionedIdSets.Values;
      }
    }

    method IndexContains(i: IndexId, t: TransactionId, o: ObjectId) returns (r: Result<bool>)
      requires IndicesValid()
      ensures horizon <= t ==> r == Ok(Moment(t, o) in MembersOf(i))
    {
      if i !in indexToVersionedIdSets {
        return Ok(false);
      }
      r := indexToVersionedIdSets[i].IsActive(t, o);
    }

    /** The least object above `o` that the index holds at `t`, or NO_OBJECT. */
    method IndexLookupNext(i: IndexId, t: TransactionId, o: ObjectId) returns (r: Result<ObjectId>)
      requires IndicesValid() && NO_OBJECT <= o
      ensures horizon <= t ==> r.Ok?
      ensures horizon <= t && r.value == NO_OBJECT ==> forall j :: o < j ==> Moment(t, j) !in MembersOf(i)
      ensures horizon <= t && r.value != NO_OBJECT ==>
                && o < r.value && Moment(t, r.value) in MembersOf(i)
                && forall j :: o < j < r.value ==> Moment(t, j) !in MembersOf(i)
    {
      if i !in indexToVersionedIdSets {
        return Ok(NO_OBJECT);
      }
      r := indexToVersionedIdSets[i].LookupNext(t, o);
      if horizon <= t {
        assert forall j :: indexToVersionedIdSets[i].Member(t, j) <==> Moment(t, j) in MembersOf(i);
      }
    }

    /** Every event of the index is at or before `t`, so one at `t` decides from `t` on. */
    ghost predicate NoLaterEvents(i: IndexId, t: TransactionId)
      reads this`indexToVersionedIdSets, indexToVersionedIdSets.Values
    {
      forall u :: u in EventTimes(i) ==> u <= t
    }

    method IndexAdd(i: IndexId, t: TransactionId, o: ObjectId) returns (r: Result<()>)
      requires IndicesValid() && 0 <= t
      modifies this`indexToVersionedIdSets, this`indicesNeedingCheck, indexToVersionedIdSets.Values
      ensures IndicesValid()
      ensures fresh(indexToVersionedIdSets.Values - old(indexToVersionedIdSets.Values))
      ensures indicesNeedingCheck == old(indicesNeedingCheck) + {(t, i)}
      ensures horizon <= t ==> r.Ok?
      ensures forall j :: j != i ==> MembersOf(j) == old(MembersOf(j)) && EventTimes(j) == old(EventTimes(j))
      ensures old(NoLaterEvents(i, t)) ==> NoLaterEvents(i, t)
      ensures horizon <= t && old(NoLaterEvents(i, t)) ==> MembersOf(i) == old(MembersOf(i)) + From(t, o)
    {
      hide SetsValid, Queued;
      QueueGrows(indicesNeedingCheck, (t, i));
      indicesNeedingCheck := indicesNeedingCheck + {(t, i)};
      var s := VersionedIdSetFor(i);
      assert EventTimes(i) == old(EventTimes(i));
      r := AddTo(i, s, t, o);
    }

    method AddTo(i: IndexId, s: VersionedIdSet, t: TransactionId, o: ObjectId) returns (r: Result<()>)
      requires IndicesValid() && i in indexToVersionedIdSets && s == indexToVersionedIdSets[i]
      requires (t, i) in indicesNeedingCheck && 0 <= t
      modifies s
      ensures IndicesValid()
      ensures horizon <= t ==> r.Ok?
      ensures forall j :: j != i ==> MembersOf(j) == old(MembersOf(j)) && EventTimes(j) == old(EventTimes(j))
      ensures old(NoLaterEvents(i, t)) ==> NoLaterEvents(i, t)
      ensures horizon <= t && old(NoLaterEvents(i, t)) ==> MembersOf(i) == old(MembersOf(i)) + From(t, o)
    {
      hide Queued, Transposed;
      ghost var times, before := Timeline(s.objToTrans, o), s.members;
      assert EventTimes(i) == s.transToObj.Keys;
      if horizon <= t && NoLaterEvents(i, t) {
        LatestEventCovers(s.transToObj, s.objToTrans, t, o);
      }
      r := s.Add(t, o);
      StaysQueued(old(EventTimes(i)), indicesNeedingCheck, i, t, EventTimes(i));
      forall j
        ensures Queued(EventTimes(j), indicesNeedingCheck, j)
      {
        assert Queued(old(EventTimes(j)), indicesNeedingCheck, j) && (j != i ==> EventTimes(j) == old(EventTimes(j)));
      }
      if horizon <= t && old(NoLaterEvents(i, t)) {
        assert forall m: Moment :: m in s.members <==> m in before + From(t, o) by {
          assert forall m: Moment :: s.Member(m.tid, m.objId) <==> m in s.members;
        }
      }
    }

    method IndexRemove(i: IndexId, t: TransactionId, o: ObjectId) returns (r: Result<()>)
      requires IndicesValid() && 0 <= t
      modifies this`indexToVersionedIdSets, this`indicesNeedingCheck, indexToVersionedIdSets.Values
      ensures IndicesValid()
      ensures fresh(indexToVersionedIdSets.Values - old(indexToVersionedIdSets.Values))
      ensures indicesNeedingCheck == old(indicesNeedingCheck) + {(t, i)}
      ensures horizon <= t ==> r.Ok?
      ensures forall j :: j != i ==> MembersOf(j) == old(MembersOf(j)) && EventTimes(j) == old(EventTimes(j))
      ensures old(NoLaterEvents(i, t)) ==> NoLaterEvents(i, t)
      ensures horizon <= t && old(NoLaterEvents(i, t)) ==> MembersOf(i) == old(MembersOf(i)) - From(t, o)
    {
      hide SetsValid, Queued;
      QueueGrows(indicesNeedingCheck, (t, i));
      indicesNeedingCheck := indicesNeedingCheck + {(t, i)};
      var s := VersionedIdSetFor(i);
      assert EventTimes(i) == old(EventTimes(i));
      r := RemoveTo(i, s, t, o);
    }

    method RemoveTo(i: IndexId, s: VersionedIdSet, t: TransactionId, o: ObjectId) returns (r: Result<()>)
      requires IndicesValid() && i in indexToVersionedIdSets && s == indexToVersionedIdSets[i]
      requires (t, i) in indicesNeedingCheck && 0 <= t
      modifies s
      ensures IndicesValid()
      ensures horizon <= t ==> r.Ok?
      ensures forall j :: j != i ==> MembersOf(j) == old(MembersOf(j)) && EventTimes(j) == old(EventTimes(j))
      ensures old(NoLaterEvents(i, t)) ==> NoLaterEvents(i, t)
      ensures horizon <= t && old(NoLaterEvents(i, t)) ==> MembersOf(i) == old(MembersOf(i)) - From(t, o)
    {
      hide Queued, Transposed;
      ghost var times, before := Timeline(s.objToTrans, o), s.members;
      assert EventTimes(i) == s.transToObj.Keys;
      if horizon <= t && NoLaterEvents(i, t) {
        LatestEventCovers(s.transToObj, s.objToTrans, t, o);
      }
      r := s.Remove(t, o);
      StaysQueued(old(EventTimes(i)), indicesNeedingCheck, i, t, EventTimes(i));
      forall j
        ensures Queued(EventTimes(j), indicesNeedingCheck, j)
      {
        assert Queued(old(EventTimes(j)), indicesNeedingCheck, j) && (j != i ==> EventTimes(j) == old(EventTimes(j)));
      }
      if horizon <= t && old(NoLaterEvents(i, t)) {
        assert forall m: Moment :: m in s.members <==> m in before - From(t, o) by {
          assert forall m: Moment :: s.Member(m.tid, m.objId) <==> m in s.members;
        }
      }
    }

    /** Collect below `t`, driven by what was written since. Nothing a reader at or above `t` sees may change. */
    method MoveGuaranteedLowestIdForward(t: TransactionId)
      requires Valid() && horizon <= t
      modifies this, fieldToVersionedObjects.Values, indexToVersionedIdSets.Values
      ensures Valid() && horizon == t
      ensures fieldToVersionedObjects == old(fieldToVersionedObjects)
      ensures fresh(indexToVersionedIdSets.Values - old(indexToVersionedIdSets.Values))
      ensures forall f :: OnlyUnreadDropped(old(HistOf(f)), HistOf(f), t)
      ensures forall f ::
                HistOf(f) == AfterCheck(old(HistOf(f)), t, IsDue(old(fieldsNeedingCheck), f, t), old(DueOf(f, t)))
      ensures forall i :: SameFrom(t, MembersOf(i), old(MembersOf(i))) && EventTimes(i) <= old(EventTimes(i))
      ensures forall i, u :: u in EventTimes(i) ==> t <= u
      ensures forall i, v :: (v, i) in old(indicesNeedingCheck) && v < t ==> InUse(i)
      ensures fieldsNeedingCheck == set e | e in old(fieldsNeedingCheck) && t <= e.0
      ensures old(Awaited()) && old(horizon) < t && (forall f, e :: e in old(HistOf(f)) ==> e.version <= t) ==>
                Awaited() && forall f :: HiddenSince(HistOf(f), t)
    {
      hide FieldsValid, IndicesValid, HistOf, MembersOf, EventTimes, DueOf, AfterCheck, IsDue, QueueOf, Awaits;
      hide HiddenSince;
      if horizon < t {
        AllDue(t);
      }
      RaiseHorizon(t);
      CollectFields(t);
      CollectIndices(t);
      if old(Awaited()) && old(horizon) < t && forall f, e :: e in old(HistOf(f)) ==> e.version <= t {
        forall f
          ensures Awaits(HistOf(f), QueueOf(f), fieldsNeedingCheck, f) && HiddenSince(HistOf(f), t)
        {
          CollectionAwaits(old(HistOf(f)), old(QueueOf(f)), QueueOf(f), old(fieldsNeedingCheck), f, t);
        }
      }
      CheckDropsUnread(t);
    }

    lemma AllDue(t: TransactionId)
      requires FieldsValid() && horizon < t
      ensures forall f :: DueOf(f, t) == DueBelow(QueueOf(f), t)
    {
      assert DueBelow(map[], t) == {};
    }

    ghost method RaiseHorizon(t: TransactionId)
      requires Valid() && horizon <= t
      modifies this`horizon
      ensures Valid() && horizon == t
    {
      horizon := t;
    }

    /** The first loop: consume the queue of fields. */
    method CollectFields(t: TransactionId)
      requires Valid() && horizon == t
      modifies this`fieldsNeedingCheck, fieldToVersionedObjects.Values
      ensures Valid()
      ensures forall f ::
                HistOf(f) == AfterCheck(old(HistOf(f)), t, IsDue(old(fieldsNeedingCheck), f, t), old(DueOf(f, t)))
      ensures forall f :: !IsDue(old(fieldsNeedingCheck), f, t) ==> QueueOf(f) == old(QueueOf(f))
      ensures forall i :: MembersOf(i) == old(MembersOf(i)) && EventTimes(i) == old(EventTimes(i))
      ensures fieldsNeedingCheck == set e | e in old(fieldsNeedingCheck) && t <= e.0
    {
      hide FieldsValid, HistOf, DueOf, AfterCheck, IsDue;
      CollectQueuedFields(t);
    }

    method CollectQueuedFields(t: TransactionId)
      requires FieldsValid() && horizon == t
      modifies this`fieldsNeedingCheck, fieldToVersionedObjects.Values
      ensures FieldsValid()
      ensures forall f ::
                HistOf(f) == AfterCheck(old(HistOf(f)), t, IsDue(old(fieldsNeedingCheck), f, t), old(DueOf(f, t)))
      ensures forall f :: !IsDue(old(fieldsNeedingCheck), f, t) ==> QueueOf(f) == old(QueueOf(f))
      ensures fieldsNeedingCheck == set e | e in old(fieldsNeedingCheck) && t <= e.0
    {
      hide FieldsValid, HistOf, DueOf, AfterCheck;
      ghost var queue := fieldsNeedingCheck;
      CheckTwice(t);
      while exists e :: e in fieldsNeedingCheck && e.0 < t
        invariant FieldsValid()
        invariant forall f ::
                    HistOf(f) == AfterCheck(old(HistOf(f)), t, Taken(queue, fieldsNeedingCheck, f), old(DueOf(f, t)))
        invariant forall f :: !Taken(queue, fieldsNeedingCheck, f) ==> QueueOf(f) == old(QueueOf(f))
        invariant forall f :: DueOf(f, t) == if Taken(queue, fieldsNeedingCheck, f) then {} else old(DueOf(f, t))
        invariant fieldsNeedingCheck <= queue && forall e :: e in queue && t <= e.0 ==> e in fieldsNeedingCheck
        decreases fieldsNeedingCheck
      {
        var e :| e in fieldsNeedingCheck && e.0 < t;
        QueuedFieldExists(e);
        TakenOneMore(queue, fieldsNeedingCheck, e);
        CollectField(e, t);
      }
      TakenWasDue(queue, fieldsNeedingCheck, t);
    }

    lemma QueuedFieldExists(e: (TransactionId, FieldId))
      requires FieldsValid() && e in fieldsNeedingCheck
      ensures e.1 in fieldToVersionedObjects && fieldToVersionedObjects[e.1] in fieldToVersionedObjects.Values
    {
    }

    method CollectField(e: (TransactionId, FieldId), t: TransactionId)
      requires FieldsValid() && e in fieldsNeedingCheck && horizon == t
      modifies this`fieldsNeedingCheck, fieldToVersionedObjects[e.1]
      ensures FieldsValid() && fieldsNeedingCheck == old(fieldsNeedingCheck) - {e}
      ensures HistOf(e.1) == AfterCheck(old(HistOf(e.1)), t, true, old(DueOf(e.1, t))) && DueOf(e.1, t) == {}
      ensures forall g :: g != e.1 ==> HistOf(g) == old(HistOf(g)) && DueOf(g, t) == old(DueOf(g, t))
      ensures forall g :: g != e.1 ==> QueueOf(g) == old(QueueOf(g))
    {
      hide Collected;
      var f := e.1;
      assert f in fieldToVersionedObjects;
      var objs := fieldToVersionedObjects[f];
      fieldsNeedingCheck := fieldsNeedingCheck - {e};
      NothingCollected(objs.hist, t);
      objs.MoveGuaranteedLowestIdForward(t);
    }

    /** The second loop: compact the queued indices, erasing those left empty. */
    method CollectIndices(t: TransactionId)
      requires Valid() && horizon == t
      modifies this`indexToVersionedIdSets, this`indicesNeedingCheck, indexToVersionedIdSets.Values
      ensures Valid()
      ensures fresh(indexToVersionedIdSets.Values - old(indexToVersionedIdSets.Values))
      ensures forall f :: HistOf(f) == old(HistOf(f)) && QueueOf(f) == old(QueueOf(f))
      ensures forall i :: SameFrom(t, MembersOf(i), old(MembersOf(i))) && EventTimes(i) <= old(EventTimes(i))
      ensures forall i, u :: u in EventTimes(i) ==> t <= u
      ensures forall i, v :: (v, i) in old(indicesNeedingCheck) && v < t ==> InUse(i)
    {
      CollectQueuedIndices(t);
    }

    method CollectQueuedIndices(t: TransactionId)
      requires IndicesValid() && horizon == t
      modifies this`indexToVersionedIdSets, this`indicesNeedingCheck, indexToVersionedIdSets.Values
      ensures IndicesValid()
      ensures fresh(indexToVersionedIdSets.Values - old(indexToVersionedIdSets.Values))
      ensures forall i :: SameFrom(t, MembersOf(i), old(MembersOf(i))) && EventTimes(i) <= old(EventTimes(i))
      ensures forall i, u :: u in EventTimes(i) ==> t <= u
      ensures forall i, v :: (v, i) in old(indicesNeedingCheck) && v < t ==> InUse(i)
    {
      hide InUse, SetsValid, EventTimes, MembersOf;
      while exists e :: e in indicesNeedingCheck && e.0 < t
        invariant IndicesValid()
        invariant fresh(indexToVersionedIdSets.Values - old(indexToVersionedIdSets.Values))
        invariant forall i :: SameFrom(t, MembersOf(i), old(MembersOf(i))) && EventTimes(i) <= old(EventTimes(i))
        invariant forall i, v ::
                    (v, i) in old(indicesNeedingCheck) && v < t && (v, i) !in indicesNeedingCheck ==> InUse(i)
        decreases set e | e in indicesNeedingCheck && e.0 < t
      {
        var e :| e in indicesNeedingCheck && e.0 < t;
        ghost var due := set d | d in indicesNeedingCheck && d.0 < t;
        assert e in due && e == (e.0, e.1);
        TakenOff(indicesNeedingCheck, e);
        indicesNeedingCheck := indicesNeedingCheck - {e};
        CollectIndex(e.1, t);
      }
      forall i
        ensures forall u :: u in EventTimes(i) ==> t <= u
      {
        NoneDue(EventTimes(i), indicesNeedingCheck, i, t);
      }
    }

    method CollectIndex(i: IndexId, t: TransactionId)
      requires SetsValid() && (forall j :: j != i ==> Queued(EventTimes(j), indicesNeedingCheck, j)) && horizon == t
      modifies this`indexToVersionedIdSets, this`indicesNeedingCheck, indexToVersionedIdSets.Values
      ensures IndicesValid()
      ensures fresh(indexToVersionedIdSets.Values - old(indexToVersionedIdSets.Values))
      ensures forall j :: SameFrom(t, MembersOf(j), old(MembersOf(j))) && EventTimes(j) <= old(EventTimes(j))
      ensures InUse(i) && forall j :: j != i && old(InUse(j)) ==> InUse(j)
      ensures forall d :: d in indicesNeedingCheck && d.0 < t ==> d in old(indicesNeedingCheck)
      ensures old(indicesNeedingCheck) <= indicesNeedingCheck
    {
      hide SetsValid, Queued;
      var s := VersionedIdSetFor(i);
      var next := CompactIn(i, s, t);
      RequeueOrErase(i, s, next);
    }

    /** Queue the index for its next event, or drop it if it is empty. */
    method RequeueOrErase(i: IndexId, s: VersionedIdSet, next: TransactionId)
      requires SetsValid() && i in indexToVersionedIdSets && s == indexToVersionedIdSets[i]
      requires forall u :: u in EventTimes(i) ==> NO_TRANSACTION < next <= u
      requires next != NO_TRANSACTION ==> EventTimes(i) != {}
      requires forall j :: j != i ==> Queued(EventTimes(j), indicesNeedingCheck, j)
      modifies this`indexToVersionedIdSets, this`indicesNeedingCheck
      ensures IndicesValid()
      ensures InUse(i) && forall j :: j != i && old(InUse(j)) ==> InUse(j)
      ensures indexToVersionedIdSets.Values <= old(indexToVersionedIdSets.Values)
      ensures forall j :: MembersOf(j) == old(MembersOf(j)) && EventTimes(j) == old(EventTimes(j))
      ensures indicesNeedingCheck == old(indicesNeedingCheck) + if next != NO_TRANSACTION then {(next, i)} else {}
    {
      hide SetsValid;
      if next != NO_TRANSACTION {
        indicesNeedingCheck := indicesNeedingCheck + {(next, i)};
      } else {
        EraseIfEmpty(i, s);
      }
    }

    method CompactIn(i: IndexId, s: VersionedIdSet, t: TransactionId) returns (next: TransactionId)
      requires SetsValid() && horizon == t && i in indexToVersionedIdSets && s == indexToVersionedIdSets[i]
      modifies s
      ensures SetsValid()
      ensures forall j :: SameFrom(t, MembersOf(j), old(MembersOf(j))) && EventTimes(j) <= old(EventTimes(j))
      ensures next == NO_TRANSACTION || t <= next
      ensures forall u :: u in EventTimes(i) ==> NO_TRANSACTION < next <= u
      ensures next != NO_TRANSACTION ==> EventTimes(i) != {}
      ensures forall j :: j != i && old(InUse(j)) ==> InUse(j)
    {
      ghost var before := s.members;
      var moved := s.MoveGuaranteedLowestIdForward(t);
      next := moved.value;
      assert forall m: Moment :: t <= m.tid ==> (m in s.members <==> m in before) by {
        assert forall m: Moment :: s.Member(m.tid, m.objId) <==> m in s.members;
      }
    }

    method EraseIfEmpty(i: IndexId, s: VersionedIdSet)
      requires SetsValid() && i in indexToVersionedIdSets && s == indexToVersionedIdSets[i]
      modifies this`indexToVersionedIdSets
      ensures SetsValid() && InUse(i) && forall j :: j != i && old(InUse(j)) ==> InUse(j)
      ensures indexToVersionedIdSets.Values <= old(indexToVersionedIdSets.Values)
      ensures forall j :: MembersOf(j) == old(MembersOf(j)) && EventTimes(j) == old(EventTimes(j))
    {
      var empty := s.Empty();
      if empty {
        indexToVersionedIdSets := indexToVersionedIdSets - {i};
      }
    }
  }

  /** Version `n` of the object hides version `u`. */
  ghost predicate Hides(h: History, o: ObjectId, u: TransactionId, n: TransactionId) {
    ObjectAndVersion(o, u) in h && ObjectAndVersion(o, n) in h && u < n
  }

  /** The object's last version is a deletion. */
  ghost predicate EndsDeleted(h: History, o: ObjectId, d: TransactionId) {
    IsTop(h, o, d) && h[ObjectAndVersion(o, d)].Deleted?
  }

  /** Each hidden version of the object awaits a check of it and of the field, and so does its deletion. */
  ghost predicate ObjectAwaits(h: History, q: CheckQueue, needing: set<(TransactionId, FieldId)>, f: FieldId,
                               o: ObjectId)
  {
    && (forall u, n :: Hides(h, o, u, n) ==> IsQueued(q, o, u) && IsDue(needing, f, n + 1))
    && (forall d :: EndsDeleted(h, o, d) ==> exists u :: Hides(h, o, u, d))
  }

  ghost predicate Awaits(h: History, q: CheckQueue, needing: set<(TransactionId, FieldId)>, f: FieldId) {
    forall o :: ObjectAwaits(h, q, needing, f, o)
  }

  /** No version of the object was hidden, nor was it deleted, before `t`. */
  ghost predicate ObjectHiddenSince(h: History, t: TransactionId, o: ObjectId) {
    && (forall u, n :: Hides(h, o, u, n) ==> t <= n)
    && (forall d :: EndsDeleted(h, o, d) ==> t <= d)
  }

  ghost predicate HiddenSince(h: History, t: TransactionId) {
    forall o :: ObjectHiddenSince(h, t, o)
  }

  lemma WriteAwaits(h: History, h': History, q: CheckQueue, q': CheckQueue, needing: set<(TransactionId, FieldId)>,
                    f: FieldId, o: ObjectId, v: TransactionId)
    requires ObjectAwaits(h, q, needing, f, o) && h'.Keys == h.Keys + {ObjectAndVersion(o, v)}
    requires forall k :: k in h && k != ObjectAndVersion(o, v) ==> h'[k] == h[k]
    requires h'[ObjectAndVersion(o, v)].Deleted? ==>
               || (ObjectAndVersion(o, v) in h && h[ObjectAndVersion(o, v)].Deleted?)
               || exists u :: u < v && ObjectAndVersion(o, u) in h
    requires forall p, u :: IsQueued(q, p, u) ==> IsQueued(q', p, u)
    requires ObjectAndVersion(o, v) !in h ==> forall u :: ComesToBeHidden(h, o, v, u) ==> IsQueued(q', o, u)
    ensures ObjectAwaits(h', q', needing + {(v, f)}, f, o)
  {
    OthersAwait(h, q, needing, (v, f), f, o);
    assert (v, f) in needing + {(v, f)};
    hide IsQueued, ComesToBeHidden;
    forall u, n | Hides(h', o, u, n)
      ensures IsQueued(q', o, u) && IsDue(needing + {(v, f)}, f, n + 1)
    {
      if !Hides(h, o, u, n) {
        HiddenIsQueued(h, h', q, q', needing, f, o, v, u);
      }
    }
    forall d | EndsDeleted(h', o, d)
      ensures exists u :: Hides(h', o, u, d)
    {
      if ObjectAndVersion(o, d) in h && h[ObjectAndVersion(o, d)].Deleted? {
        assert EndsDeleted(h, o, d);
        var u :| Hides(h, o, u, d);
        assert Hides(h', o, u, d);
      } else {
        var u :| u < v && ObjectAndVersion(o, u) in h;
        assert Hides(h', o, u, d);
      }
    }
  }

  lemma HiddenIsQueued(h: History, h': History, q: CheckQueue, q': CheckQueue, needing: set<(TransactionId, FieldId)>,
                       f: FieldId, o: ObjectId, v: TransactionId, u: TransactionId)
    requires ObjectAwaits(h, q, needing, f, o) && h'.Keys == h.Keys + {ObjectAndVersion(o, v)}
    requires forall p, u :: IsQueued(q, p, u) ==> IsQueued(q', p, u)
    requires ObjectAndVersion(o, v) !in h ==> forall u :: ComesToBeHidden(h, o, v, u) ==> IsQueued(q', o, u)
    requires IsHidden(h', ObjectAndVersion(o, u))
    ensures IsQueued(q', o, u)
  {
    hide IsQueued, IsDue, ComesToBeHidden, EndsDeleted;
    if IsHidden(h, ObjectAndVersion(o, u)) {
      var n :| ObjectAndVersion(o, n) in h && u < n;
      assert Hides(h, o, u, n);
    } else {
      NewlyHidden(h, h', o, v, ObjectAndVersion(o, u));
    }
  }

  /** An object not written to. */
  lemma SameAwaits(h: History, h': History, q: CheckQueue, q': CheckQueue, needing: set<(TransactionId, FieldId)>,
                   f: FieldId, o: ObjectId)
    requires ObjectAwaits(h, q, needing, f, o) && forall p, u :: IsQueued(q, p, u) ==> IsQueued(q', p, u)
    requires forall u :: ObjectAndVersion(o, u) in h' <==> ObjectAndVersion(o, u) in h
    requires forall u :: ObjectAndVersion(o, u) in h ==> h'[ObjectAndVersion(o, u)] == h[ObjectAndVersion(o, u)]
    ensures ObjectAwaits(h', q', needing, f, o)
  {
    hide IsQueued, IsDue;
    assert forall u, n :: Hides(h', o, u, n) <==> Hides(h, o, u, n);
    assert forall d :: EndsDeleted(h', o, d) <==> EndsDeleted(h, o, d);
    hide Hides, EndsDeleted;
  }

  lemma NewlyHidden(h: History, h': History, o: ObjectId, v: TransactionId, k: ObjectAndVersion)
    requires h'.Keys == h.Keys + {ObjectAndVersion(o, v)} && IsHidden(h', k) && !IsHidden(h, k)
    ensures k.objectId == o && ObjectAndVersion(o, v) !in h && ComesToBeHidden(h, o, v, k.version)
  {
    var n :| ObjectAndVersion(k.objectId, n) in h' && k.version < n;
    if k.version == v {
      assert n in Versions(h, o);
      var top := Greatest(Versions(h, o));
      assert IsTop(h, o, top);
    } else {
      assert IsTop(h, o, k.version);
    }
  }

  lemma ValueAwaits(h: History, q: CheckQueue, q': CheckQueue, needing: set<(TransactionId, FieldId)>, f: FieldId,
                    o: ObjectId, v: TransactionId, data: Bytes)
    requires Awaits(h, q, needing, f)
    requires forall p, u :: IsQueued(q, p, u) ==> IsQueued(q', p, u)
    requires ObjectAndVersion(o, v) !in h ==> forall u :: ComesToBeHidden(h, o, v, u) ==> IsQueued(q', o, u)
    ensures Awaits(WithValue(h, o, v, data), q', needing + {(v, f)}, f)
  {
    var h' := WithValue(h, o, v, data);
    hide IsQueued, ComesToBeHidden, ObjectAwaits;
    forall p
      ensures ObjectAwaits(h', q', needing + {(v, f)}, f, p)
    {
      if p == o {
        WriteAwaits(h, h', q, q', needing, f, o, v);
      } else {
        SameAwaits(h, h', q, q', needing, f, p);
        OthersAwait(h', q', needing, (v, f), f, p);
      }
    }
  }

  lemma DeletionAwaits(h: History, q: CheckQueue, q': CheckQueue, needing: set<(TransactionId, FieldId)>, f: FieldId,
                       o: ObjectId, v: TransactionId)
    requires Awaits(h, q, needing, f)
    requires forall p, u :: IsQueued(q, p, u) ==> IsQueued(q', p, u)
    requires CanDelete(h, o, v) ==> forall u :: ComesToBeHidden(h, o, v, u) ==> IsQueued(q', o, u)
    ensures Awaits(if CanDelete(h, o, v) then WithDeletion(h, o, v) else h, q', needing + {(v, f)}, f)
  {
    var h' := if CanDelete(h, o, v) then WithDeletion(h, o, v) else h;
    hide IsQueued, ComesToBeHidden, ObjectAwaits;
    forall p
      ensures ObjectAwaits(h', q', needing + {(v, f)}, f, p)
    {
      if p == o && CanDelete(h, o, v) {
        WriteAwaits(h, h', q, q', needing, f, o, v);
      } else {
        SameAwaits(h, h', q, q', needing, f, p);
        OthersAwait(h', q', needing, (v, f), f, p);
      }
    }
  }

  lemma OthersAwait(h: History, q: CheckQueue, needing: set<(TransactionId, FieldId)>, e: (TransactionId, FieldId),
                    g: FieldId, o: ObjectId)
    requires ObjectAwaits(h, q, needing, g, o)
    ensures ObjectAwaits(h, q, needing + {e}, g, o)
  {
    hide IsQueued;
    forall t | IsDue(needing, g, t)
      ensures IsDue(needing + {e}, g, t)
    {
      var v :| (v, g) in needing && v < t;
      assert (v, g) in needing + {e};
    }
  }

  lemma OtherFieldsAwait(h: History, q: CheckQueue, needing: set<(TransactionId, FieldId)>,
                         e: (TransactionId, FieldId), g: FieldId)
    requires Awaits(h, q, needing, g)
    ensures Awaits(h, q, needing + {e}, g)
  {
    hide ObjectAwaits;
    forall o
      ensures ObjectAwaits(h, q, needing + {e}, g, o)
    {
      OthersAwait(h, q, needing, e, g, o);
    }
  }

  /** Collecting at or above all versions is complete. */
  lemma CollectionAwaits(h: History, q: CheckQueue, q': CheckQueue, needing: set<(TransactionId, FieldId)>, f: FieldId,
                         t: TransactionId)
    requires Awaits(h, q, needing, f) && forall e :: e in h ==> e.version <= t
    requires !IsDue(needing, f, t) ==> q' == q
    ensures var after := AfterCheck(h, t, IsDue(needing, f, t), DueBelow(q, t));
            Awaits(after, q', (set e | e in needing && t <= e.0), f) && HiddenSince(after, t)
  {
    var rest := set e | e in needing && t <= e.0;
    var after := AfterCheck(h, t, IsDue(needing, f, t), DueBelow(q, t));
    hide ObjectAwaits, ObjectHiddenSince, DueBelow, IsDue;
    forall o
      ensures ObjectAwaits(after, q', rest, f, o) && ObjectHiddenSince(after, t, o)
    {
      assert ObjectAwaits(h, q, needing, f, o);
      if IsDue(needing, f, t) {
        ObjectCollected(h, q, needing, f, t, o);
        AloneAwaits(after, q', rest, f, t, o);
      } else {
        NotDueYet(h, q, needing, f, t, o);
      }
    }
  }

  lemma NotDueYet(h: History, q: CheckQueue, needing: set<(TransactionId, FieldId)>, f: FieldId, t: TransactionId,
                  o: ObjectId)
    requires ObjectAwaits(h, q, needing, f, o) && !IsDue(needing, f, t)
    ensures ObjectAwaits(h, q, (set e | e in needing && t <= e.0), f, o) && ObjectHiddenSince(h, t, o)
  {
    hide IsQueued, EndsDeleted, Hides;
    var rest := set e | e in needing && t <= e.0;
    forall n | IsDue(needing, f, n)
      ensures t < n && IsDue(rest, f, n)
    {
      var v :| (v, f) in needing && v < n;
      assert (v, f) in rest;
    }
  }

  /** Of the object at most one version is left, and no deletion. */
  ghost predicate Alone(h: History, o: ObjectId) {
    && (forall u, n :: !Hides(h, o, u, n))
    && (forall d :: !EndsDeleted(h, o, d))
  }

  lemma AloneAwaits(h: History, q: CheckQueue, needing: set<(TransactionId, FieldId)>, f: FieldId, t: TransactionId,
                    o: ObjectId)
    requires Alone(h, o)
    ensures ObjectAwaits(h, q, needing, f, o) && ObjectHiddenSince(h, t, o)
  {
  }

  lemma ObjectCollected(h: History, q: CheckQueue, needing: set<(TransactionId, FieldId)>, f: FieldId,
                        t: TransactionId, o: ObjectId)
    requires ObjectAwaits(h, q, needing, f, o) && forall e :: e in h ==> e.version <= t
    ensures Alone(Collected(h, t, DueBelow(q, t)), o)
  {
    var c := Collected(h, t, DueBelow(q, t));
    DueIfQueued(q, t);
    CollectedLeavesNothing(h, t, DueBelow(q, t));
    hide DueBelow, IsDue, IsQueued;
    assert forall u :: ObjectAndVersion(o, u) in c ==> ObjectAndVersion(o, u) in h && u <= t;
    if o in DueBelow(q, t) {
      hide Collected;
      assert NothingToCollect(c, o, t);
    } else {
      SameAfterCollection(h, q, needing, f, t, o);
    }
  }

  lemma SameAfterCollection(h: History, q: CheckQueue, needing: set<(TransactionId, FieldId)>, f: FieldId,
                            t: TransactionId, o: ObjectId)
    requires ObjectAwaits(h, q, needing, f, o) && (forall e :: e in h ==> e.version <= t) && o !in DueBelow(q, t)
    ensures Alone(Collected(h, t, DueBelow(q, t)), o)
  {
    var c := Collected(h, t, DueBelow(q, t));
    DueIfQueued(q, t);
    assert forall u, n :: Hides(h, o, u, n) ==> u < t;
    hide DueBelow, IsDue, IsQueued;
    assert forall u, n :: Hides(c, o, u, n) <==> Hides(h, o, u, n);
    assert forall d :: EndsDeleted(c, o, d) <==> EndsDeleted(h, o, d);
    hide Hides, EndsDeleted, Collected;
  }

  /** The field is queued for a check below `t`. */
  ghost predicate IsDue(queue: set<(TransactionId, FieldId)>, f: FieldId, t: TransactionId) {
    exists v :: (v, f) in queue && v < t
  }

  /** Some entry of the field was taken off the queue. */
  ghost predicate Taken(before: set<(TransactionId, FieldId)>, after: set<(TransactionId, FieldId)>, f: FieldId) {
    exists v :: (v, f) in before && (v, f) !in after
  }

  /** A field's history after its queue of objects was checked, if it was. */
  ghost function AfterCheck(h: History, t: TransactionId, checked: bool, objs: set<ObjectId>): History {
    if checked then Collected(h, t, objs) else h
  }

  lemma CheckTwice(t: TransactionId)
    ensures forall h: History, objs ::
              AfterCheck(AfterCheck(h, t, true, objs), t, true, {}) == AfterCheck(h, t, true, objs)
    ensures forall h: History, objs :: AfterCheck(h, t, false, objs) == h
  {
    forall h: History
      ensures Collected(h, t, {}) == h
    {
      NothingCollected(h, t);
    }
  }

  lemma CheckDropsUnread(t: TransactionId)
    ensures forall h: History, checked, objs :: OnlyUnreadDropped(h, AfterCheck(h, t, checked, objs), t)
  {
    forall h: History, checked: bool, objs
      ensures OnlyUnreadDropped(h, AfterCheck(h, t, checked, objs), t)
    {
      CollectedOnlyDropsUnread(h, t, objs);
    }
  }

  lemma TakenOneMore(before: set<(TransactionId, FieldId)>, after: set<(TransactionId, FieldId)>,
                     e: (TransactionId, FieldId))
    requires e in after && after <= before
    ensures forall f :: Taken(before, after - {e}, f) <==> Taken(before, after, f) || f == e.1
  {
    forall f
      ensures Taken(before, after - {e}, f) <==> Taken(before, after, f) || f == e.1
    {
      var v := e.0;
      assert e == (v, e.1);
      assert f == e.1 ==> (v, f) in before && (v, f) !in after - {e};
      assert f == e.1 ==> Taken(before, after - {e}, f);
      assert Taken(before, after, f) ==> Taken(before, after - {e}, f);
      assert Taken(before, after - {e}, f) && f != e.1 ==> Taken(before, after, f) by {
        if Taken(before, after - {e}, f) && f != e.1 {
          var u :| (u, f) in before && (u, f) !in after - {e};
          assert (u, f) != e;
          assert (u, f) !in after;
        }
      }
    }
  }

  lemma TakenWasDue(before: set<(TransactionId, FieldId)>, after: set<(TransactionId, FieldId)>, t: TransactionId)
    requires after <= before && forall e :: e in before ==> (e in after <==> t <= e.0)
    ensures forall f :: Taken(before, after, f) <==> IsDue(before, f, t)
  {
  }

  lemma NothingCollected(h: History, t: TransactionId)
    ensures Collected(h, t, {}) == h
  {
  }

  predicate NoneNegative(times: set<TransactionId>) {
    forall u :: u in times ==> 0 <= u
  }

  /** Every event of the index has an entry in the queue that is due no later. */
  ghost predicate Queued(times: set<TransactionId>, queue: set<(TransactionId, IndexId)>, i: IndexId) {
    forall u :: u in times ==> exists v :: v <= u && (v, i) in queue
  }

  lemma StaysQueued(times: set<TransactionId>, queue: set<(TransactionId, IndexId)>, i: IndexId, t: TransactionId,
                    more: set<TransactionId>)
    requires Queued(times, queue, i) && more <= times + {t} && (t, i) in queue
    ensures Queued(more, queue, i)
  {
  }

  lemma QueueGrows(queue: set<(TransactionId, IndexId)>, e: (TransactionId, IndexId))
    ensures forall times, i :: Queued(times, queue, i) ==> Queued(times, queue + {e}, i)
  {
  }

  lemma TakenOff(queue: set<(TransactionId, IndexId)>, e: (TransactionId, IndexId))
    ensures forall times, i :: i != e.1 && Queued(times, queue, i) ==> Queued(times, queue - {e}, i)
  {
  }

  lemma NoneDue(times: set<TransactionId>, queue: set<(TransactionId, IndexId)>, i: IndexId, t: TransactionId)
    requires Queued(times, queue, i) && forall e :: e in queue ==> t <= e.0
    ensures forall u :: u in times ==> t <= u
  {
  }

  /** `o` from transaction `t` on. */
  ghost function From(t: TransactionId, o: ObjectId): iset<Moment> {
    iset m: Moment | m.objId == o && t <= m.tid
  }

  /** No reader at or above `t` can tell the two apart. */
  ghost predicate SameFrom(t: TransactionId, a: iset<Moment>, b: iset<Moment>) {
    forall m: Moment :: t <= m.tid ==> (m in a <==> m in b)
  }

  /** Versions disappeared only where no reader at or above `t` could see the difference. */
  ghost predicate OnlyUnreadDropped(h: History, h': History, t: TransactionId) {
    && (forall k :: k in h' ==> k in h && h'[k] == h[k])
    && (forall o, v :: t <= v ==> ReadAt(h', o, v) == ReadAt(h, o, v))
  }

  lemma CollectedOnlyDropsUnread(h: History, t: TransactionId, objs: set<ObjectId>)
    ensures OnlyUnreadDropped(h, Collected(h, t, objs), t)
  {
    forall o, v | t <= v
      ensures ReadAt(Collected(h, t, objs), o, v) == ReadAt(h, o, v)
    {
      CollectedKeepsReads(h, t, objs, o, v);
    }
  }

  lemma LatestEventCovers(a: Events, b: Timelines, t: TransactionId, o: ObjectId)
    requires Transposed(a, b) && forall u :: u in a.Keys ==> u <= t
    ensures forall u, p :: Covers(Timeline(b, o), t, o, u, p) <==> p == o && t <= u
  {
    TimelineOf(a, b, o);
  }
}
