/** object_database/DatabaseConnectionState.hpp: a client's replica. It applies the transactions
    the server broadcasts, counts the views open at each version, and collects what no view
    can reach. The ghost `log` is the list of transactions applied so far. */
module Replica {
  import opened Common
  import opened OrderedSets
  import opened Database
  import opened VersionHistory
  import opened VersionedIdSets
  import opened AllVersionedObjects

  class DatabaseConnectionState {
    const objects: VersionedObjects
    var curTransactionId: TransactionId
    var minTransactionId: TransactionId
    var versionRefcounts: map<TransactionId, int>

    ghost var log: Log

    ghost predicate Valid()
      reads this, objects, objects.fieldToVersionedObjects.Values, objects.indexToVersionedIdSets.Values
    {
      && NO_TRANSACTION <= minTransactionId <= curTransactionId
      && curTransactionId == (if log == [] then NO_TRANSACTION else log[|log| - 1].tid)
      && ValidUpTo(curTransactionId)
    }

    /** The invariant, with `latest` the highest transaction applied. */
    ghost predicate ValidUpTo(latest: TransactionId)
      reads this`log, this`minTransactionId, objects,
            objects.fieldToVersionedObjects.Values, objects.indexToVersionedIdSets.Values
    {
      && objects.Valid()
      && objects.horizon == minTransactionId
      && (forall t :: t in log ==> t.tid <= latest)
      && FieldsUpTo(log, latest)
      && IndicesUpTo(log, latest)
    }

    /** Every version kept was written by a logged transaction, and every field read at or above
        the minimum id is what the logged transactions say. */
    ghost predicate FieldsUpTo(log: Log, latest: TransactionId)
      reads this`minTransactionId, objects`fieldToVersionedObjects, objects.fieldToVersionedObjects.Values
    {
      && (forall f, e :: e in objects.HistOf(f) ==>
            e.version <= latest && WrittenAt(log, ObjectFieldId(e.objectId, f), e.version))
      && (forall k, v :: minTransactionId <= v ==> FieldAt(k, v) == Lookup(StateAt(log, v).fields, k))
    }

    /** Every index membership at or above the minimum id is what the logged transactions say. */
    ghost predicate IndicesUpTo(log: Log, latest: TransactionId)
      reads this`minTransactionId, objects`indexToVersionedIdSets, objects.indexToVersionedIdSets.Values
    {
      && (forall i :: objects.NoLaterEvents(i, latest))
      && (forall i, m: Moment :: minTransactionId <= m.tid ==>
            (m in objects.MembersOf(i) <==> Membership(i, m.objId) in StateAt(log, m.tid).members))
    }

    ghost function FieldAt(k: ObjectFieldId, v: TransactionId): Option<Bytes>
      reads objects`fieldToVersionedObjects, objects.fieldToVersionedObjects.Values
    {
      ReadAt(objects.HistOf(k.fieldId), k.objId, v)
    }

    constructor ()
      ensures Valid() && log == [] && fresh(objects) && objects.Awaited()
      ensures objects.fieldToVersionedObjects == map[] && objects.indexToVersionedIdSets == map[]
      ensures curTransactionId == minTransactionId == NO_TRANSACTION && versionRefcounts == map[]
    {
      objects := new VersionedObjects();
      curTransactionId, minTransactionId := NO_TRANSACTION, NO_TRANSACTION;
      versionRefcounts := map[];
      log := [];
    }

    /** The loop over the writes of a transaction. */
    method ApplyWrites(writes: map<ObjectFieldId, Option<Bytes>>, tid: TransactionId)
      requires objects.FieldsValid() && objects.horizon <= tid && 0 <= tid
      requires forall f :: NoLater(objects.HistOf(f), tid)
      requires forall k :: k in writes ==> NoClash(objects.HistOf(k.fieldId), k.objId, tid, writes[k])
      modifies objects`fieldToVersionedObjects, objects`fieldsNeedingCheck, objects.fieldToVersionedObjects.Values
      ensures objects.FieldsValid()
      ensures fresh(objects.fieldToVersionedObjects.Values - old(objects.fieldToVersionedObjects.Values))
      ensures forall k, v :: FieldAt(k, v) == if k in writes && tid <= v then writes[k] else old(FieldAt(k, v))
      ensures forall f, e :: e in objects.HistOf(f) ==>
                e in old(objects.HistOf(f)) || (e.version == tid && ObjectFieldId(e.objectId, f) in writes)
      ensures old(objects.Awaited()) ==> objects.Awaited()
    {
      hide ReadAt, VersionedObjects.FieldsValid, VersionedObjects.Awaited;
      var todo := writes.Keys;
      while todo != {}
        invariant todo <= writes.Keys
        invariant objects.FieldsValid()
        invariant fresh(objects.fieldToVersionedObjects.Values - old(objects.fieldToVersionedObjects.Values))
        invariant forall f :: NoLater(objects.HistOf(f), tid)
        invariant forall k :: k in todo ==> NoClash(objects.HistOf(k.fieldId), k.objId, tid, writes[k])
        invariant forall k, v ::
                    FieldAt(k, v) == if k in writes && k !in todo && tid <= v then writes[k] else old(FieldAt(k, v))
        invariant forall f, e :: e in objects.HistOf(f) ==>
                    e in old(objects.HistOf(f)) || (e.version == tid && ObjectFieldId(e.objectId, f) in writes)
        invariant old(objects.Awaited()) ==> objects.Awaited()
        decreases todo
      {
        ghost var some := AnElement(todo);
        var k :| k in todo;
        ApplyWrite(k, tid, writes[k]);
        todo := todo - {k};
      }
    }

    method ApplyWrite(k: ObjectFieldId, tid: TransactionId, value: Option<Bytes>)
      requires objects.FieldsValid() && objects.horizon <= tid && 0 <= tid
      requires NoLater(objects.HistOf(k.fieldId), tid) && NoClash(objects.HistOf(k.fieldId), k.objId, tid, value)
      modifies objects`fieldToVersionedObjects, objects`fieldsNeedingCheck, objects.fieldToVersionedObjects.Values
      ensures objects.FieldsValid()
      ensures fresh(objects.fieldToVersionedObjects.Values - old(objects.fieldToVersionedObjects.Values))
      ensures forall f :: f != k.fieldId ==> objects.HistOf(f) == old(objects.HistOf(f))
      ensures WroteOnly(old(objects.HistOf(k.fieldId)), objects.HistOf(k.fieldId), k.objId, tid)
      ensures forall j, v :: FieldAt(j, v) == if j == k && tid <= v then value else old(FieldAt(j, v))
      ensures old(objects.Awaited()) ==> objects.Awaited()
    {
      hide VersionedObjects.Awaited;
      AfterWriteReads(objects.HistOf(k.fieldId), k.objId, tid, value);
      WriteVersion(k, tid, value);
    }

    method WriteVersion(k: ObjectFieldId, tid: TransactionId, value: Option<Bytes>)
      requires objects.FieldsValid() && objects.horizon <= tid && 0 <= tid
      modifies objects`fieldToVersionedObjects, objects`fieldsNeedingCheck, objects.fieldToVersionedObjects.Values
      ensures objects.FieldsValid()
      ensures fresh(objects.fieldToVersionedObjects.Values - old(objects.fieldToVersionedObjects.Values))
      ensures forall f :: f != k.fieldId ==> objects.HistOf(f) == old(objects.HistOf(f))
      ensures objects.HistOf(k.fieldId) == AfterWrite(old(objects.HistOf(k.fieldId)), k.objId, tid, value)
      ensures old(objects.Awaited()) ==> objects.Awaited()
    {
      hide VersionedObjects.Awaited;
      match value
      case None =>
        var done := objects.MarkObjectVersionDeleted(k.fieldId, k.objId, tid);
      case Some(data) =>
        var added := objects.AddObjectVersion(k.fieldId, k.objId, tid, data);
    }

    /** Add the listed objects, index value by index value. */
    method AddAll(m: map<IndexId, set<ObjectId>>, tid: TransactionId)
      requires objects.IndicesValid() && objects.horizon <= tid && 0 <= tid
      requires forall i :: objects.NoLaterEvents(i, tid)
      modifies objects`indexToVersionedIdSets, objects`indicesNeedingCheck, objects.indexToVersionedIdSets.Values
      ensures objects.IndicesValid()
      ensures fresh(objects.indexToVersionedIdSets.Values - old(objects.indexToVersionedIdSets.Values))
      ensures forall i :: objects.NoLaterEvents(i, tid)
      ensures forall i :: objects.MembersOf(i) == old(objects.MembersOf(i)) + FromAll(tid, ObjectsOf(m, i))
    {
      var todo := m.Keys;
      while todo != {}
        invariant todo <= m.Keys
        invariant objects.IndicesValid()
        invariant fresh(objects.indexToVersionedIdSets.Values - old(objects.indexToVersionedIdSets.Values))
        invariant forall i :: objects.NoLaterEvents(i, tid)
        invariant forall i :: objects.MembersOf(i) ==
                    if i in todo then old(objects.MembersOf(i))
                    else old(objects.MembersOf(i)) + FromAll(tid, ObjectsOf(m, i))
        decreases todo
      {
        ghost var some := AnElement(todo);
        var i :| i in todo;
        AddObjects(i, m[i], tid);
        todo := todo - {i};
      }
    }

    method AddObjects(i: IndexId, os: set<ObjectId>, tid: TransactionId)
      requires objects.IndicesValid() && objects.horizon <= tid && 0 <= tid
      requires forall j :: objects.NoLaterEvents(j, tid)
      modifies objects`indexToVersionedIdSets, objects`indicesNeedingCheck, objects.indexToVersionedIdSets.Values
      ensures objects.IndicesValid()
      ensures fresh(objects.indexToVersionedIdSets.Values - old(objects.indexToVersionedIdSets.Values))
      ensures forall j :: objects.NoLaterEvents(j, tid)
      ensures objects.MembersOf(i) == old(objects.MembersOf(i)) + FromAll(tid, os)
      ensures forall j :: j != i ==> objects.MembersOf(j) == old(objects.MembersOf(j))
    {
      var todo := os;
      while todo != {}
        invariant todo <= os
        invariant objects.IndicesValid()
        invariant fresh(objects.indexToVersionedIdSets.Values - old(objects.indexToVersionedIdSets.Values))
        invariant forall j :: old(objects.NoLaterEvents(j, tid)) ==> objects.NoLaterEvents(j, tid)
        invariant objects.MembersOf(i) == old(objects.MembersOf(i)) + FromAll(tid, os - todo)
        invariant forall j :: j != i ==> objects.MembersOf(j) == old(objects.MembersOf(j))
        decreases todo
      {
        ghost var some := AnElement(todo);
        var o :| o in todo;
        FromOneMore(tid, os - todo, o);
        assert os - (todo - {o}) == os - todo + {o};
        label before:
        var r := objects.IndexAdd(i, tid, o);
        assert forall j :: old@before(objects.NoLaterEvents(j, tid)) ==> objects.NoLaterEvents(j, tid);
        todo := todo - {o};
      }
      assert os - todo == os;
    }

    /** Remove the listed objects, index value by index value. */
    method RemoveAll(m: map<IndexId, set<ObjectId>>, tid: TransactionId)
      requires objects.IndicesValid() && objects.horizon <= tid && 0 <= tid
      requires forall i :: objects.NoLaterEvents(i, tid)
      modifies objects`indexToVersionedIdSets, objects`indicesNeedingCheck, objects.indexToVersionedIdSets.Values
      ensures objects.IndicesValid()
      ensures fresh(objects.indexToVersionedIdSets.Values - old(objects.indexToVersionedIdSets.Values))
      ensures forall i :: objects.NoLaterEvents(i, tid)
      ensures forall i :: objects.MembersOf(i) == old(objects.MembersOf(i)) - FromAll(tid, ObjectsOf(m, i))
    {
      var todo := m.Keys;
      while todo != {}
        invariant todo <= m.Keys
        invariant objects.IndicesValid()
        invariant fresh(objects.indexToVersionedIdSets.Values - old(objects.indexToVersionedIdSets.Values))
        invariant forall i :: objects.NoLaterEvents(i, tid)
        invariant forall i :: objects.MembersOf(i) ==
                    if i in todo then old(objects.MembersOf(i))
                    else old(objects.MembersOf(i)) - FromAll(tid, ObjectsOf(m, i))
        decreases todo
      {
        ghost var some := AnElement(todo);
        var i :| i in todo;
        RemoveObjects(i, m[i], tid);
        todo := todo - {i};
      }
    }

    method RemoveObjects(i: IndexId, os: set<ObjectId>, tid: TransactionId)
      requires objects.IndicesValid() && objects.horizon <= tid && 0 <= tid
      requires forall j :: objects.NoLaterEvents(j, tid)
      modifies objects`indexToVersionedIdSets, objects`indicesNeedingCheck, objects.indexToVersionedIdSets.Values
      ensures objects.IndicesValid()
      ensures fresh(objects.indexToVersionedIdSets.Values - old(objects.indexToVersionedIdSets.Values))
      ensures forall j :: objects.NoLaterEvents(j, tid)
      ensures objects.MembersOf(i) == old(objects.MembersOf(i)) - FromAll(tid, os)
      ensures forall j :: j != i ==> objects.MembersOf(j) == old(objects.MembersOf(j))
    {
      var todo := os;
      while todo != {}
        invariant todo <= os
        invariant objects.IndicesValid()
        invariant fresh(objects.indexToVersionedIdSets.Values - old(objects.indexToVersionedIdSets.Values))
        invariant forall j :: old(objects.NoLaterEvents(j, tid)) ==> objects.NoLaterEvents(j, tid)
        invariant objects.MembersOf(i) == old(objects.MembersOf(i)) - FromAll(tid, os - todo)
        invariant forall j :: j != i ==> objects.MembersOf(j) == old(objects.MembersOf(j))
        decreases todo
      {
        ghost var some := AnElement(todo);
        var o :| o in todo;
        FromOneMore(tid, os - todo, o);
        assert os - (todo - {o}) == os - todo + {o};
        label before:
        var r := objects.IndexRemove(i, tid, o);
        assert forall j :: old@before(objects.NoLaterEvents(j, tid)) ==> objects.NoLaterEvents(j, tid);
        todo := todo - {o};
      }
      assert os - todo == os;
    }

    /** Apply a broadcast transaction, or the data of a completed subscription. Both arrive in the
        order of the server's transaction numbers, and data repeated for the current transaction
        is the data already known. */
    method IncomingTransaction(t: Transaction)
      requires Valid() && 0 <= t.tid && curTransactionId <= t.tid && Agrees(log, t)
      modifies this, objects, objects.fieldToVersionedObjects.Values, objects.indexToVersionedIdSets.Values
      ensures Valid() && log == old(log) + [t]
      ensures fresh(objects.fieldToVersionedObjects.Values - old(objects.fieldToVersionedObjects.Values))
      ensures fresh(objects.indexToVersionedIdSets.Values - old(objects.indexToVersionedIdSets.Values))
      ensures curTransactionId == t.tid && versionRefcounts == old(versionRefcounts)
      ensures minTransactionId ==
              if old(curTransactionId) < t.tid then NewMinimum(old(minTransactionId), versionRefcounts, t.tid)
              else old(minTransactionId)
      ensures old(objects.Awaited())
              && (minTransactionId == old(minTransactionId) || minTransactionId == curTransactionId) ==>
                objects.Awaited()
      ensures old(objects.Awaited()) && old(minTransactionId) < minTransactionId == curTransactionId ==>
                forall f :: HiddenSince(objects.HistOf(f), curTransactionId)
    {
      hide VersionedObjects.Awaited, HiddenSince;
      ApplyAll(t);
      Cleanup(t.tid);
    }

    /** The three loops over the writes, index adds and index removes. */
    method ApplyAll(t: Transaction)
      requires Valid() && 0 <= t.tid && curTransactionId <= t.tid && Agrees(log, t)
      modifies this`log, objects, objects.fieldToVersionedObjects.Values, objects.indexToVersionedIdSets.Values
      ensures ValidUpTo(t.tid) && log == old(log) + [t]
      ensures fresh(objects.fieldToVersionedObjects.Values - old(objects.fieldToVersionedObjects.Values))
      ensures fresh(objects.indexToVersionedIdSets.Values - old(objects.indexToVersionedIdSets.Values))
      ensures old(objects.Awaited()) ==> objects.Awaited()
    {
      hide VersionedObjects.FieldsValid, VersionedObjects.IndicesValid, FieldsUpTo, IndicesUpTo, Agrees;
      hide VersionedObjects.Awaited;
      LaterBound(curTransactionId, t.tid);
      ApplyFieldsAndIndices(t);
      log := log + [t];
    }

    method ApplyFieldsAndIndices(t: Transaction)
      requires objects.FieldsValid() && objects.IndicesValid() && objects.horizon == minTransactionId <= t.tid
      requires 0 <= t.tid && Agrees(log, t) && FieldsUpTo(log, t.tid) && IndicesUpTo(log, t.tid)
      modifies objects, objects.fieldToVersionedObjects.Values, objects.indexToVersionedIdSets.Values
      ensures objects.FieldsValid() && objects.IndicesValid() && objects.horizon == old(objects.horizon)
      ensures FieldsUpTo(log + [t], t.tid) && IndicesUpTo(log + [t], t.tid)
      ensures fresh(objects.fieldToVersionedObjects.Values - old(objects.fieldToVersionedObjects.Values))
      ensures fresh(objects.indexToVersionedIdSets.Values - old(objects.indexToVersionedIdSets.Values))
      ensures old(objects.Awaited()) ==> objects.Awaited()
    {
      hide VersionedObjects.FieldsValid, VersionedObjects.IndicesValid, FieldsUpTo, IndicesUpTo, Agrees;
      hide VersionedObjects.Awaited;
      ApplyFields(t);
      ApplyIndices(t);
    }

    method ApplyFields(t: Transaction)
      requires objects.FieldsValid() && objects.horizon == minTransactionId <= t.tid && 0 <= t.tid && Agrees(log, t)
      requires FieldsUpTo(log, t.tid)
      modifies objects`fieldToVersionedObjects, objects`fieldsNeedingCheck, objects.fieldToVersionedObjects.Values
      ensures objects.FieldsValid() && FieldsUpTo(log + [t], t.tid)
      ensures fresh(objects.fieldToVersionedObjects.Values - old(objects.fieldToVersionedObjects.Values))
      ensures old(objects.Awaited()) ==> objects.Awaited()
    {
      hide VersionedObjects.FieldsValid, VersionedObjects.HistOf, StateAt, FieldAt, NoClash, NoLater, WrittenAt;
      hide Agrees, Lookup, VersionedObjects.Awaited;
      NoClashWhenAgreed(t);
      ApplyWrites(t.writes, t.tid);
      forall k, v | minTransactionId <= v
        ensures FieldAt(k, v) == Lookup(StateAt(log + [t], v).fields, k)
      {
        assert old(FieldAt(k, v)) == Lookup(StateAt(log, v).fields, k);
        FieldLogEffect(log, t, k, v);
      }
      forall f, e | e in objects.HistOf(f)
        ensures e.version <= t.tid && WrittenAt(log + [t], ObjectFieldId(e.objectId, f), e.version)
      {
        assert e in old(objects.HistOf(f)) ==> WrittenAt(log, ObjectFieldId(e.objectId, f), e.version);
        StaysWritten(log, t, ObjectFieldId(e.objectId, f), e.version);
      }
    }

    method ApplyIndices(t: Transaction)
      requires objects.IndicesValid() && objects.horizon == minTransactionId <= t.tid && 0 <= t.tid
      requires IndicesUpTo(log, t.tid)
      modifies objects`indexToVersionedIdSets, objects`indicesNeedingCheck, objects.indexToVersionedIdSets.Values
      ensures objects.IndicesValid() && IndicesUpTo(log + [t], t.tid)
      ensures fresh(objects.indexToVersionedIdSets.Values - old(objects.indexToVersionedIdSets.Values))
    {
      hide VersionedObjects.IndicesValid, VersionedObjects.MembersOf, VersionedObjects.EventTimes, StateAt;
      AddAll(t.setAdds, t.tid);
      RemoveAll(t.setRemoves, t.tid);
      MemberLogEffect(log, t);
    }

    lemma NoClashWhenAgreed(t: Transaction)
      requires FieldsUpTo(log, t.tid) && minTransactionId <= t.tid && Agrees(log, t)
      ensures forall k :: k in t.writes ==> NoClash(objects.HistOf(k.fieldId), k.objId, t.tid, t.writes[k])
      ensures forall f :: NoLater(objects.HistOf(f), t.tid)
    {
    }

    /** A later bound still bounds. */
    lemma LaterBound(latest: TransactionId, later: TransactionId)
      requires latest <= later
      ensures FieldsUpTo(log, latest) ==> FieldsUpTo(log, later)
      ensures IndicesUpTo(log, latest) ==> IndicesUpTo(log, later)
    {
      hide VersionedObjects.HistOf, VersionedObjects.MembersOf, VersionedObjects.EventTimes, StateAt;
      forall i | objects.NoLaterEvents(i, latest)
        ensures objects.NoLaterEvents(i, later)
      {
      }
    }

    /** Take a reference on a version, so that nothing readable there is collected. */
    method IncrefVersion(id: TransactionId)
      requires Valid()
      modifies this`versionRefcounts
      ensures Valid()
      ensures versionRefcounts == Acquired(old(versionRefcounts), id)
      ensures forall v :: CountAt(versionRefcounts, v) == old(CountAt(versionRefcounts, v)) + if v == id then 1 else 0
      ensures versionRefcounts.Keys == old(versionRefcounts.Keys) + {id}
    {
      versionRefcounts := versionRefcounts[id := (if id in versionRefcounts then versionRefcounts[id] else 0) + 1];
    }

    /** Give a reference up. A version without one is no longer kept, and what it alone held back is collected. */
    method DecrefVersion(id: TransactionId)
      requires Valid()
      modifies this`versionRefcounts, this`minTransactionId, objects,
               objects.fieldToVersionedObjects.Values, objects.indexToVersionedIdSets.Values
      ensures Valid()
      ensures fresh(objects.fieldToVersionedObjects.Values - old(objects.fieldToVersionedObjects.Values))
      ensures fresh(objects.indexToVersionedIdSets.Values - old(objects.indexToVersionedIdSets.Values))
      ensures versionRefcounts == Released(old(versionRefcounts), id)
      ensures forall v :: CountAt(versionRefcounts, v) == old(CountAt(versionRefcounts, v)) - if v == id then 1 else 0
      ensures forall v :: v in versionRefcounts
                <==> if v == id then CountAt(versionRefcounts, v) != 0 else v in old(versionRefcounts)
      ensures minTransactionId == NewMinimum(old(minTransactionId), versionRefcounts, curTransactionId)
      ensures old(objects.Awaited())
              && (minTransactionId == old(minTransactionId) || minTransactionId == curTransactionId) ==>
                objects.Awaited()
      ensures old(objects.Awaited()) && old(minTransactionId) < minTransactionId == curTransactionId ==>
                forall f :: HiddenSince(objects.HistOf(f), curTransactionId)
    {
      hide ValidUpTo, NewMinimum, VersionedObjects.Awaited, HiddenSince;
      ReleasedInSteps(versionRefcounts, id);
      hide Released, CountAt;
      versionRefcounts := versionRefcounts[id := (if id in versionRefcounts then versionRefcounts[id] else 0) - 1];
      if versionRefcounts[id] == 0 {
        versionRefcounts := versionRefcounts - {id};
      }
      CheckMinId();
    }

    method Cleanup(observed: TransactionId)
      requires NO_TRANSACTION <= minTransactionId <= curTransactionId && ValidUpTo(Max(curTransactionId, observed))
      requires log != [] && log[|log| - 1].tid == observed && curTransactionId <= observed
      modifies this`curTransactionId, this`minTransactionId, objects,
               objects.fieldToVersionedObjects.Values, objects.indexToVersionedIdSets.Values
      ensures Valid()
      ensures fresh(objects.fieldToVersionedObjects.Values - old(objects.fieldToVersionedObjects.Values))
      ensures fresh(objects.indexToVersionedIdSets.Values - old(objects.indexToVersionedIdSets.Values))
      ensures curTransactionId == Max(old(curTransactionId), observed)
      ensures minTransactionId ==
              if old(curTransactionId) < observed then NewMinimum(old(minTransactionId), versionRefcounts, observed)
              else old(minTransactionId)
      ensures old(objects.Awaited())
              && (minTransactionId == old(minTransactionId) || minTransactionId == curTransactionId) ==>
                objects.Awaited()
      ensures old(objects.Awaited()) && old(minTransactionId) < minTransactionId == curTransactionId ==>
                forall f :: HiddenSince(objects.HistOf(f), curTransactionId)
    {
      hide VersionedObjects.Awaited, HiddenSince;
      if observed <= curTransactionId {
        return;
      }
      curTransactionId := observed;
      CheckMinId();
    }

    /** Raise the minimum id to the oldest referenced version, or to the current one, and collect below it. */
    method CheckMinId()
      requires Valid()
      modifies this`minTransactionId, objects,
               objects.fieldToVersionedObjects.Values, objects.indexToVersionedIdSets.Values
      ensures Valid()
      ensures fresh(objects.fieldToVersionedObjects.Values - old(objects.fieldToVersionedObjects.Values))
      ensures fresh(objects.indexToVersionedIdSets.Values - old(objects.indexToVersionedIdSets.Values))
      ensures minTransactionId == NewMinimum(old(minTransactionId), versionRefcounts, curTransactionId)
      ensures old(objects.Awaited())
              && (minTransactionId == old(minTransactionId) || minTransactionId == curTransactionId) ==>
                objects.Awaited()
      ensures old(objects.Awaited()) && old(minTransactionId) < minTransactionId == curTransactionId ==>
                forall f :: HiddenSince(objects.HistOf(f), curTransactionId)
    {
      hide VersionedObjects.Awaited, HiddenSince;
      var minId := curTransactionId;
      if versionRefcounts != map[] {
        assert versionRefcounts.Keys != {};
        minId := Min(Least(versionRefcounts.Keys), minId);
      }
      if minId > minTransactionId {
        CollectBelow(minId);
      }
    }

    method CollectBelow(minId: TransactionId)
      requires Valid() && minTransactionId < minId <= curTransactionId
      modifies this`minTransactionId, objects,
               objects.fieldToVersionedObjects.Values, objects.indexToVersionedIdSets.Values
      ensures Valid() && minTransactionId == minId
      ensures fresh(objects.fieldToVersionedObjects.Values - old(objects.fieldToVersionedObjects.Values))
      ensures fresh(objects.indexToVersionedIdSets.Values - old(objects.indexToVersionedIdSets.Values))
      ensures old(objects.Awaited()) && minId == curTransactionId ==>
                objects.Awaited() && forall f :: HiddenSince(objects.HistOf(f), minId)
    {
      hide VersionedObjects.Valid, VersionedObjects.HistOf, VersionedObjects.MembersOf, VersionedObjects.EventTimes;
      hide StateAt, VersionedObjects.Awaited, HiddenSince;
      assert forall f, e :: e in objects.HistOf(f) ==> e.version <= curTransactionId;
      minTransactionId := minId;
      objects.MoveGuaranteedLowestIdForward(minTransactionId);
      forall i
        ensures objects.NoLaterEvents(i, curTransactionId)
      {
        assert old(objects.NoLaterEvents(i, curTransactionId));
      }
    }
  }

  /** How many references a version has. */
  function CountAt(refs: map<TransactionId, int>, v: TransactionId): int {
    if v in refs then refs[v] else 0
  }

  function Acquired(refs: map<TransactionId, int>, id: TransactionId): (r: map<TransactionId, int>)
    ensures forall v :: CountAt(r, v) == CountAt(refs, v) + if v == id then 1 else 0
    ensures r.Keys == refs.Keys + {id}
  {
    refs[id := CountAt(refs, id) + 1]
  }

  function Released(refs: map<TransactionId, int>, id: TransactionId): (r: map<TransactionId, int>)
    ensures forall v :: CountAt(r, v) == CountAt(refs, v) - if v == id then 1 else 0
    ensures forall v :: v in r <==> if v == id then CountAt(r, v) != 0 else v in refs
  {
    var count := CountAt(refs, id) - 1;
    if count == 0 then refs - {id} else refs[id := count]
  }

  lemma ReleasedInSteps(refs: map<TransactionId, int>, id: TransactionId)
    ensures var less := refs[id := (if id in refs then refs[id] else 0) - 1];
            Released(refs, id) == if less[id] == 0 then less - {id} else less
  {
  }

  /** The collection horizon never moves down. It moves up as far as the current transaction and all referenced
      versions allow, and no further. */
  function NewMinimum(minimum: TransactionId, refs: map<TransactionId, int>, current: TransactionId):
    (r: TransactionId)
    ensures minimum <= r && (r == minimum || r == current || r in refs)
    ensures minimum < r ==> r <= current && forall v :: v in refs ==> r <= v
    ensures r == minimum ==> current <= minimum || exists v :: v in refs && v <= minimum
  {
    if refs == map[] then Max(minimum, current)
    else
      assert refs.Keys != {};
      Max(minimum, Min(Least(refs.Keys), current))
  }

  /** One more logged transaction changes the state from its number on, and only where it says so. */
  lemma FieldLogEffect(log: Log, t: Transaction, k: ObjectFieldId, v: TransactionId)
    ensures Lookup(StateAt(log + [t], v).fields, k)
            == if k in t.writes && t.tid <= v then t.writes[k] else Lookup(StateAt(log, v).fields, k)
  {
  }

  lemma MemberLogEffect(log: Log, t: Transaction)
    ensures forall v, m ::
              m in StateAt(log + [t], v).members
              <==> if t.tid <= v then m in StateAt(log, v).members + Pairs(t.setAdds) - Pairs(t.setRemoves)
                   else m in StateAt(log, v).members
  {
  }

  lemma StaysWritten(log: Log, t: Transaction, k: ObjectFieldId, v: TransactionId)
    ensures WrittenAt(log + [t], k, v) <==> WrittenAt(log, k, v) || (v == t.tid && k in t.writes)
  {
  }

  function ObjectsOf(m: map<IndexId, set<ObjectId>>, i: IndexId): set<ObjectId> {
    if i in m then m[i] else {}
  }

  /** The objects `os` from transaction `t` on. */
  ghost function FromAll(t: TransactionId, os: set<ObjectId>): iset<Moment> {
    iset m: Moment | m.objId in os && t <= m.tid
  }

  lemma FromOneMore(t: TransactionId, os: set<ObjectId>, o: ObjectId)
    ensures FromAll(t, os + {o}) == FromAll(t, os) + From(t, o)
  {
  }

  /** A version already made by transaction `t` is of the same kind as the value to be written at `t`. */
  ghost predicate NoClash(h: History, o: ObjectId, t: TransactionId, value: Option<Bytes>) {
    ObjectAndVersion(o, t) in h ==> h[ObjectAndVersion(o, t)].Written? == value.Some?
  }

  ghost predicate NoLater(h: History, t: TransactionId) {
    forall e :: e in h ==> e.version <= t
  }

  /** What a field's history becomes when a transaction writes a value, or None to delete. */
  ghost function AfterWrite(h: History, o: ObjectId, t: TransactionId, value: Option<Bytes>): History {
    if value.Some? then WithValue(h, o, t, value.value)
    else if CanDelete(h, o, t) then WithDeletion(h, o, t)
    else h
  }

  /** The two histories differ at most at version `t` of `o`. */
  ghost predicate WroteOnly(h: History, h': History, o: ObjectId, t: TransactionId) {
    && (forall e :: e in h' ==> e in h || e == ObjectAndVersion(o, t))
    && (forall e :: e in h && e != ObjectAndVersion(o, t) ==> e in h' && h'[e] == h[e])
  }

  lemma AfterWriteReads(h: History, o: ObjectId, t: TransactionId, value: Option<Bytes>)
    requires NoLater(h, t) && NoClash(h, o, t, value)
    ensures forall p, v ::
              ReadAt(AfterWrite(h, o, t, value), p, v) == if p == o && t <= v then value else ReadAt(h, p, v)
    ensures WroteOnly(h, AfterWrite(h, o, t, value), o, t)
  {
    forall p, v
      ensures ReadAt(AfterWrite(h, o, t, value), p, v) == if p == o && t <= v then value else ReadAt(h, p, v)
    {
      AfterWriteRead(h, o, t, value, p, v);
    }
  }

  lemma AfterWriteRead(h: History, o: ObjectId, t: TransactionId, value: Option<Bytes>, p: ObjectId, v: TransactionId)
    requires NoLater(h, t) && NoClash(h, o, t, value)
    ensures ReadAt(AfterWrite(h, o, t, value), p, v) == if p == o && t <= v then value else ReadAt(h, p, v)
  {
    assert forall u :: ObjectAndVersion(o, u) in h ==> u <= t;
    if value.Some? {
      WithValueReads(h, o, t, value.value, p, v);
    } else if CanDelete(h, o, t) {
      WithDeletionReads(h, o, t, p, v);
    } else if p == o && t <= v && Versions(h, o) != {} {
      var top := Greatest(Versions(h, o));
      assert IsTop(h, o, top);
      assert IsFloor(Versions(h, o), v, top);
    }
  }
}
