/** object_database/VersionedObjectsOfMultiType.hpp: all versions of one field, per object,
    as hash maps of chain links, serialized values and deletion markers, with the queue that
    garbage-collects them. The cache of deserialized values is not part of this model. */
module MultiTypeObjects {
  import opened Common
  import opened OrderedSets
  import opened VersionHistory
  import opened VersionChain

  type CheckQueue = map<TransactionId, set<ObjectId>>

  /** The objects registered for a check at some version below `t`. */
  ghost function DueBelow(q: CheckQueue, t: TransactionId): set<ObjectId> {
    set v, o | v in q && v < t && o in q[v] :: o
  }

  /** The object is to be checked once the guarantee has passed version `u`. */
  predicate IsQueued(q: CheckQueue, o: ObjectId, u: TransactionId) {
    u in q && o in q[u]
  }

  function Registered(q: CheckQueue, o: ObjectId, tid: TransactionId): (r: CheckQueue)
    ensures forall p, u :: IsQueued(r, p, u) <==> IsQueued(q, p, u) || (p == o && u == tid)
  {
    q[tid := (if tid in q then q[tid] else {}) + {o}]
  }

  /** Version `u` is the older of a new version and the last one there was: the one that is hidden from now on. */
  ghost predicate ComesToBeHidden(h: History, o: ObjectId, version: TransactionId, u: TransactionId) {
    exists top :: IsTop(h, o, top) && u == if top < version then top else version
  }

  lemma HiddenByTop(h: History, o: ObjectId, version: TransactionId, top: TransactionId)
    requires if top == NO_TRANSACTION then forall u :: ObjectAndVersion(o, u) !in h else IsTop(h, o, top)
    ensures forall u :: ComesToBeHidden(h, o, version, u) <==> top != NO_TRANSACTION && u == Min(top, version)
  {
  }

  /** The version has a later one. */
  ghost predicate IsHidden(h: History, k: ObjectAndVersion) {
    k in h && exists n :: ObjectAndVersion(k.objectId, n) in h && k.version < n
  }

  /** A hidden version awaits its check, unless it is below the guarantee: its check has been consumed then, which
      was too early if the version that hides it was above the guarantee. */
  ghost predicate HiddenAreQueued(h: History, q: CheckQueue, lowest: TransactionId) {
    forall k :: IsHidden(h, k) ==> IsQueued(q, k.objectId, k.version) || k.version < lowest
  }

  /** No version of the object is left that a later one hides from all readers at or above `t`, nor is the object
      if it is deleted for them. */
  ghost predicate NothingToCollect(h: History, o: ObjectId, t: TransactionId) {
    && (forall u, n :: ObjectAndVersion(o, u) in h && ObjectAndVersion(o, n) in h && u < n ==> t < n)
    && (forall u :: IsTop(h, o, u) && h[ObjectAndVersion(o, u)].Deleted? ==> t < u)
  }

  lemma CollectedLeavesNothing(h: History, t: TransactionId, objs: set<ObjectId>)
    ensures forall o :: o in objs ==> NothingToCollect(Collected(h, t, objs), o, t)
  {
    var c := Collected(h, t, objs);
    forall o, u | o in objs && IsTop(c, o, u) && c[ObjectAndVersion(o, u)].Deleted?
      ensures t < u
    {
      var top := Greatest(Versions(h, o));
      assert IsTop(h, o, top) && ObjectAndVersion(o, top) in c;
    }
    assert forall o, u, n :: o in objs && ObjectAndVersion(o, u) in c && ObjectAndVersion(o, n) in c && u < n && n <= t
             ==> Superseded(h, t, ObjectAndVersion(o, u));
  }

  lemma DueIfQueued(q: CheckQueue, t: TransactionId)
    ensures forall o, u :: IsQueued(q, o, u) && u < t ==> o in DueBelow(q, t)
  {
  }

  lemma AddingQueues(h: History, h': History, q: CheckQueue, q': CheckQueue, o: ObjectId, v: TransactionId,
                     lowest: TransactionId)
    requires HiddenAreQueued(h, q, lowest) && h'.Keys == h.Keys + {ObjectAndVersion(o, v)}
    requires forall p, u :: IsQueued(q, p, u) ==> IsQueued(q', p, u)
    requires ObjectAndVersion(o, v) !in h ==> forall u :: ComesToBeHidden(h, o, v, u) ==> IsQueued(q', o, u)
    ensures HiddenAreQueued(h', q', lowest)
  {
    forall k | IsHidden(h', k)
      ensures IsQueued(q', k.objectId, k.version) || k.version < lowest
    {
      if !IsHidden(h, k) {
        var n :| ObjectAndVersion(k.objectId, n) in h' && k.version < n;
        assert k.objectId == o;
        if k.version == v {
          assert n in Versions(h, o);
          var top := Greatest(Versions(h, o));
          assert IsTop(h, o, top) && ComesToBeHidden(h, o, v, v);
        } else {
          assert n == v && IsTop(h, o, k.version) && ComesToBeHidden(h, o, v, k.version);
        }
      }
    }
  }

  lemma ConsumedIsBelow(h: History, h': History, q: CheckQueue, q': CheckQueue, lowest: TransactionId,
                        t: TransactionId)
    requires HiddenAreQueued(h, q, lowest) && h'.Keys <= h.Keys && lowest <= t
    requires forall p, u :: t <= u && IsQueued(q, p, u) ==> IsQueued(q', p, u)
    ensures HiddenAreQueued(h', q', t)
  {
    assert forall k :: IsHidden(h', k) ==> IsHidden(h, k);
  }

  lemma NothingChecked(h: History, t: TransactionId)
    ensures Collected(h, t, {}) == h
  {
  }

  ghost function HistoryOf(versions: Versioned, values: map<ObjectAndVersion, Bytes>, deleted: Versioned): History
    requires versions <= values.Keys + deleted
  {
    map k | k in versions :: if k in deleted then Deleted else Written(values[k])
  }

  lemma HistoryAdd(s: Versioned, values: map<ObjectAndVersion, Bytes>, deleted: Versioned, k: ObjectAndVersion,
                   data: Bytes)
    requires s == values.Keys + deleted
    ensures s + {k} == values[k := data].Keys + deleted
    ensures HistoryOf(s + {k}, values[k := data], deleted)
            == WithValue(HistoryOf(s, values, deleted), k.objectId, k.version, data)
  {
  }

  lemma HistoryDelete(s: Versioned, values: map<ObjectAndVersion, Bytes>, deleted: Versioned, k: ObjectAndVersion)
    requires s == values.Keys + deleted
    ensures s + {k} == values.Keys + (deleted + {k})
    ensures HistoryOf(s + {k}, values, deleted + {k})
            == WithDeletion(HistoryOf(s, values, deleted), k.objectId, k.version)
  {
  }

  lemma HistoryDrop(s: Versioned, values: map<ObjectAndVersion, Bytes>, deleted: Versioned, k: ObjectAndVersion)
    requires s == values.Keys + deleted
    ensures s - {k} == (values - {k}).Keys + (deleted - {k})
    ensures HistoryOf(s - {k}, values - {k}, deleted - {k}) == HistoryOf(s, values, deleted) - {k}
  {
  }

  class VersionedObjectsOfMultiType {
    var guaranteedLowestId: TransactionId
    var minMaxVersions: Bounds
    var priorAndNext: Links
    var serializedValues: map<ObjectAndVersion, Bytes>
    var deletedValues: set<ObjectAndVersion>
    var versionNumbersToCheck: CheckQueue

    /** The abstract meaning of the maps above. */
    ghost var hist: History

    ghost predicate Valid()
      reads this
    {
      MapsValid() && HiddenAreQueued(hist, versionNumbersToCheck, guaranteedLowestId)
    }

    /** The maps together are the history. */
    ghost predicate MapsValid()
      reads this`minMaxVersions, this`priorAndNext, this`serializedValues, this`deletedValues, this`hist
    {
      && Chained(minMaxVersions, priorAndNext)
      && priorAndNext.Keys == serializedValues.Keys + deletedValues
      && hist == HistoryOf(priorAndNext.Keys, serializedValues, deletedValues)
    }

    constructor ()
      ensures Valid() && hist == map[]
      ensures guaranteedLowestId == NO_TRANSACTION && versionNumbersToCheck == map[]
    {
      guaranteedLowestId := NO_TRANSACTION;
      minMaxVersions := map[];
      priorAndNext := map[];
      serializedValues := map[];
      deletedValues := {};
      versionNumbersToCheck := map[];
      hist := map[];
    }

    method GetTopTid(o: ObjectId) returns (t: TransactionId)
      requires MapsValid()
      ensures if t == NO_TRANSACTION then o !in minMaxVersions else o in minMaxVersions && t == minMaxVersions[o].max
      ensures t == NO_TRANSACTION ==> forall u :: ObjectAndVersion(o, u) !in hist
      ensures t != NO_TRANSACTION ==> IsTop(hist, o, t)
    {
      if o !in minMaxVersions {
        return NO_TRANSACTION;
      }
      t := minMaxVersions[o].max;
      assert AreBounds(priorAndNext.Keys, o, minMaxVersions[o]);
      assert LinkOk(priorAndNext.Keys, ObjectAndVersion(o, t), priorAndNext[ObjectAndVersion(o, t)]);
    }

    /** The greatest version not above `version`, or NO_TRANSACTION when there is none or it is no longer kept. */
    method BestTransactionId(o: ObjectId, version: TransactionId) returns (id: TransactionId)
      requires Valid()
      ensures version < guaranteedLowestId ==> id == NO_TRANSACTION
      ensures guaranteedLowestId <= version ==>
                Floor(Versions(hist, o), version) == if id == NO_TRANSACTION then None else Some(id)
    {
      hide HiddenAreQueued;
      if version < guaranteedLowestId || o !in minMaxVersions {
        return NO_TRANSACTION;
      }
      var range := minMaxVersions[o];
      assert AreBounds(priorAndNext.Keys, o, range);
      assert LinkOk(priorAndNext.Keys, ObjectAndVersion(o, range.max), priorAndNext[ObjectAndVersion(o, range.max)]);
      assert forall u :: u in Versions(hist, o) <==> ObjectAndVersion(o, u) in priorAndNext;
      if version < range.min {
        return NO_TRANSACTION;
      }
      id := range.max;
      while id > version
        invariant ObjectAndVersion(o, id) in priorAndNext
        invariant forall u :: u in Versions(hist, o) && u <= version ==> u <= id
        decreases id
      {
        var k := ObjectAndVersion(o, id);
        assert LinkOk(priorAndNext.Keys, k, priorAndNext[k]);
        assert ObjectAndVersion(o, range.min) in priorAndNext;
        id := priorAndNext[k].prior;
      }
      assert LinkOk(priorAndNext.Keys, ObjectAndVersion(o, id), priorAndNext[ObjectAndVersion(o, id)]);
      assert IsFloor(Versions(hist, o), version, id);
    }

    method SerializedObjectDataAtTid(o: ObjectId, tid: TransactionId) returns (r: Option<Bytes>)
      requires Valid()
      ensures r == if tid < guaranteedLowestId then None else ReadAt(hist, o, tid)
    {
      var tidToUse := BestTransactionId(o, tid);
      if tidToUse == NO_TRANSACTION {
        return None;
      }
      var k := ObjectAndVersion(o, tidToUse);
      if k in deletedValues {
        return None;
      }
      if k in serializedValues {
        return Some(serializedValues[k]);
      }
      assert false;
    }

    method ExistsAtTransaction(o: ObjectId, tid: TransactionId) returns (r: bool)
      requires Valid()
      ensures r == (guaranteedLowestId <= tid && ReadAt(hist, o, tid).Some?)
    {
      var bestTid := BestTransactionId(o, tid);
      r := bestTid != NO_TRANSACTION && ObjectAndVersion(o, bestTid) !in deletedValues;
    }

    /** Put a new version between its neighbours. */
    method InsertVersion(o: ObjectId, prior: TransactionId, version: TransactionId, next: TransactionId)
      requires Chained(minMaxVersions, priorAndNext) && Gap(priorAndNext, o, prior, version, next)
      modifies this`minMaxVersions, this`priorAndNext
      ensures Chained(minMaxVersions, priorAndNext)
      ensures priorAndNext.Keys == old(priorAndNext.Keys) + {ObjectAndVersion(o, version)}
    {
      InsertKeepsChained(minMaxVersions, priorAndNext, o, prior, version, next);
      minMaxVersions := InsertedBounds(minMaxVersions, o, prior, version, next);
      priorAndNext := Inserted(priorAndNext, o, prior, version, next);
    }

    /** Mark `o` deleted as of `version`; refused unless its last version is an older value. */
    method MarkDeleted(o: ObjectId, version: TransactionId) returns (done: bool)
      requires Valid() && 0 <= version
      modifies this
      ensures Valid() && guaranteedLowestId == old(guaranteedLowestId)
      ensures done <==> old(guaranteedLowestId) <= version && CanDelete(old(hist), o, version)
      ensures hist == if done then WithDeletion(old(hist), o, version) else old(hist)
      ensures forall p, u :: IsQueued(versionNumbersToCheck, p, u)
                <==> || old(IsQueued(versionNumbersToCheck, p, u))
                     || (done && p == o && ComesToBeHidden(old(hist), o, version, u))
    {
      if version < guaranteedLowestId {
        return false;
      }
      var topTid := GetTopTid(o);
      CanDeleteAbove(hist, o, version, topTid);
      if topTid == NO_TRANSACTION || topTid > version
         || ObjectAndVersion(o, topTid) in deletedValues || topTid == version {
        return false;
      }
      PutDeletion(o, topTid, version);
      versionNumbersToCheck := Registered(versionNumbersToCheck, o, topTid);
      done := true;
      hide MapsValid, Registered, WithDeletion, IsQueued;
      HiddenByTop(old(hist), o, version, topTid);
      AddingQueues(old(hist), hist, old(versionNumbersToCheck), versionNumbersToCheck, o, version, guaranteedLowestId);
    }

    method PutDeletion(o: ObjectId, topTid: TransactionId, version: TransactionId)
      requires MapsValid() && 0 <= version && IsTop(hist, o, topTid) && topTid < version
      requires o in minMaxVersions && topTid == minMaxVersions[o].max
      modifies this`minMaxVersions, this`priorAndNext, this`deletedValues, this`hist
      ensures MapsValid() && hist == WithDeletion(old(hist), o, version)
      ensures hist.Keys == old(hist.Keys) + {ObjectAndVersion(o, version)}
    {
      HistoryDelete(priorAndNext.Keys, serializedValues, deletedValues, ObjectAndVersion(o, version));
      TopGap(minMaxVersions, priorAndNext, o, version);
      deletedValues := deletedValues + {ObjectAndVersion(o, version)};
      hist := WithDeletion(hist, o, version);
      InsertVersion(o, topTid, version, NO_TRANSACTION);
    }

    /** Link a version in where it belongs, and register the version it hides, or itself if it is hidden. */
    method LinkVersion(o: ObjectId, topTid: TransactionId, version: TransactionId) returns (added: bool)
      requires Chained(minMaxVersions, priorAndNext) && 0 <= version
      requires if topTid == NO_TRANSACTION then o !in minMaxVersions
               else o in minMaxVersions && topTid == minMaxVersions[o].max
      requires topTid == NO_TRANSACTION ==> ObjectAndVersion(o, version) !in priorAndNext
      requires topTid != NO_TRANSACTION ==> ObjectAndVersion(o, topTid) in priorAndNext
      requires topTid < version ==> ObjectAndVersion(o, version) !in priorAndNext
      modifies this`minMaxVersions, this`priorAndNext, this`versionNumbersToCheck
      ensures Chained(minMaxVersions, priorAndNext)
      ensures added <==> ObjectAndVersion(o, version) !in old(priorAndNext)
      ensures priorAndNext.Keys == old(priorAndNext.Keys) + {ObjectAndVersion(o, version)}
      ensures forall p, u :: IsQueued(versionNumbersToCheck, p, u)
                <==> || old(IsQueued(versionNumbersToCheck, p, u))
                     || (added && topTid != NO_TRANSACTION && p == o && u == Min(topTid, version))
    {
      hide Chained, Registered;
      var tid := topTid;
      if tid == NO_TRANSACTION {
        EmptyGap(minMaxVersions, priorAndNext, o, version);
        InsertVersion(o, NO_TRANSACTION, version, NO_TRANSACTION);
        return true;
      }
      if version > tid {
        TopGap(minMaxVersions, priorAndNext, o, version);
        InsertVersion(o, tid, version, NO_TRANSACTION);
        versionNumbersToCheck := Registered(versionNumbersToCheck, o, tid);
        return true;
      }
      var prior: TransactionId;
      tid, prior := FindNeighbours(o, tid, version);
      if prior == version || tid == version {
        return false;
      }
      InsertVersion(o, prior, version, tid);
      versionNumbersToCheck := Registered(versionNumbersToCheck, o, version);
      added := true;
    }

    /** Add a value. A version that is already there makes the call return false, yet its bytes are replaced. */
    method Add(o: ObjectId, version: TransactionId, data: Bytes) returns (added: bool)
      requires Valid() && 0 <= version
      modifies this
      ensures Valid() && guaranteedLowestId == old(guaranteedLowestId)
      ensures added <==> old(guaranteedLowestId) <= version && ObjectAndVersion(o, version) !in old(hist)
      ensures hist == if version < old(guaranteedLowestId) then old(hist) else WithValue(old(hist), o, version, data)
      ensures forall p, u :: IsQueued(versionNumbersToCheck, p, u)
                <==> || old(IsQueued(versionNumbersToCheck, p, u))
                     || (added && p == o && ComesToBeHidden(old(hist), o, version, u))
    {
      if version < guaranteedLowestId {
        return false;
      }
      var tid := GetTopTid(o);
      var k := ObjectAndVersion(o, version);
      HiddenByTop(hist, o, version, tid);
      HistoryAdd(priorAndNext.Keys, serializedValues, deletedValues, k, data);
      serializedValues := serializedValues[k := data];
      hist := WithValue(hist, o, version, data);

      hide Chained, ComesToBeHidden, Registered, WithValue, IsQueued;
      added := LinkVersion(o, tid, version);
      AddingQueues(old(hist), hist, old(versionNumbersToCheck), versionNumbersToCheck, o, version, guaranteedLowestId);
    }

    /** Walk down from the top version to the first one at or above `version`. */
    method FindNeighbours(o: ObjectId, top: TransactionId, version: TransactionId)
      returns (tid: TransactionId, prior: TransactionId)
      requires Chained(minMaxVersions, priorAndNext) && ObjectAndVersion(o, top) in priorAndNext
      requires 0 <= version <= top
      ensures ObjectAndVersion(o, tid) in priorAndNext && version <= tid && prior <= version
      ensures prior == version || tid == version <==> ObjectAndVersion(o, version) in priorAndNext
      ensures prior != version && tid != version ==>
                IsPrior(priorAndNext.Keys, o, version, prior) && IsNext(priorAndNext.Keys, o, version, tid)
    {
      tid := top;
      prior := priorAndNext[ObjectAndVersion(o, tid)].prior;
      assert LinkOk(priorAndNext.Keys, ObjectAndVersion(o, tid), priorAndNext[ObjectAndVersion(o, tid)]);
      while prior != NO_TRANSACTION && prior > version
        invariant ObjectAndVersion(o, tid) in priorAndNext && version <= tid
        invariant IsPrior(priorAndNext.Keys, o, tid, prior)
        decreases tid
      {
        tid := prior;
        prior := priorAndNext[ObjectAndVersion(o, tid)].prior;
        assert LinkOk(priorAndNext.Keys, ObjectAndVersion(o, tid), priorAndNext[ObjectAndVersion(o, tid)]);
      }
    }

    method DropObjectVersion(o: ObjectId, tid: TransactionId)
      requires MapsValid() && ObjectAndVersion(o, tid) in priorAndNext
      modifies this`minMaxVersions, this`priorAndNext, this`serializedValues, this`deletedValues, this`hist
      ensures MapsValid()
      ensures hist == old(hist) - {ObjectAndVersion(o, tid)}
      ensures priorAndNext.Keys == old(priorAndNext.Keys) - {ObjectAndVersion(o, tid)}
    {
      var k := ObjectAndVersion(o, tid);
      HistoryDrop(priorAndNext.Keys, serializedValues, deletedValues, k);
      deletedValues := deletedValues - {k};
      serializedValues := serializedValues - {k};
      hist := hist - {k};
      UnlinkVersion(k);
    }

    method UnlinkVersion(k: ObjectAndVersion)
      requires Chained(minMaxVersions, priorAndNext) && k in priorAndNext
      modifies this`minMaxVersions, this`priorAndNext
      ensures Chained(minMaxVersions, priorAndNext)
      ensures priorAndNext.Keys == old(priorAndNext.Keys) - {k}
    {
      UnlinkKeepsChained(minMaxVersions, priorAndNext, k);
      minMaxVersions := UnlinkedBounds(minMaxVersions, priorAndNext, k);
      priorAndNext := Unlinked(priorAndNext, k);
    }

    /** Drop the versions of `o` that no reader at or above the guaranteed lowest id can reach. */
    method RemoveLowestIfPossible(o: ObjectId)
      requires MapsValid()
      modifies this`minMaxVersions, this`priorAndNext, this`serializedValues, this`deletedValues, this`hist
      ensures MapsValid()
      ensures hist == Collected(old(hist), guaranteedLowestId, {o})
    {
      ghost var h0 := hist;
      var topTid := GetTopTid(o);
      if topTid == NO_TRANSACTION {
        assert Collected(h0, guaranteedLowestId, {o}) == h0;
        return;
      }
      if topTid <= guaranteedLowestId && ObjectAndVersion(o, topTid) in deletedValues {
        assert Gone(h0, guaranteedLowestId, o);
        RemoveObject(o);
        assert hist == Collected(h0, guaranteedLowestId, {o});
        return;
      }
      var bottomTid := minMaxVersions[o].min;
      BottomOfChain(minMaxVersions, priorAndNext, o);
      while bottomTid != topTid && bottomTid < guaranteedLowestId
        invariant MapsValid() && ObjectAndVersion(o, bottomTid) in priorAndNext
        invariant hist == Above(h0, o, bottomTid)
        invariant ObjectAndVersion(o, bottomTid) in h0 && bottomTid <= topTid
        invariant forall u :: ObjectAndVersion(o, u) in h0 && u < bottomTid ==> bottomTid <= guaranteedLowestId
        decreases topTid - bottomTid
      {
        var k := ObjectAndVersion(o, bottomTid);
        var nextBottomTid := priorAndNext[k].next;
        assert LinkOk(priorAndNext.Keys, k, priorAndNext[k]);
        AboveStep(h0, o, bottomTid, priorAndNext.Keys, nextBottomTid);
        if nextBottomTid > guaranteedLowestId {
          break;
        }
        DropObjectVersion(o, bottomTid);
        bottomTid := nextBottomTid;
      }
      CollectedAbove(h0, guaranteedLowestId, o, topTid, bottomTid);
    }

    /** Remove every version of an object. */
    method RemoveObject(o: ObjectId)
      requires MapsValid()
      modifies this`minMaxVersions, this`priorAndNext, this`serializedValues, this`deletedValues, this`hist
      ensures MapsValid()
      ensures hist == Without(old(hist), o)
    {
      ghost var h0 := hist;
      if o !in minMaxVersions {
        return;
      }
      var bottomTid := minMaxVersions[o].min;
      BottomOfChain(minMaxVersions, priorAndNext, o);
      while bottomTid != NO_TRANSACTION
        invariant MapsValid()
        invariant bottomTid != NO_TRANSACTION ==> ObjectAndVersion(o, bottomTid) in priorAndNext
        invariant hist == if bottomTid == NO_TRANSACTION then Without(h0, o) else Above(h0, o, bottomTid)
        decreases priorAndNext.Keys
      {
        var k := ObjectAndVersion(o, bottomTid);
        var next := priorAndNext[k].next;
        assert LinkOk(priorAndNext.Keys, k, priorAndNext[k]);
        AboveStep(h0, o, bottomTid, priorAndNext.Keys, next);
        DropObjectVersion(o, bottomTid);
        bottomTid := next;
      }
    }

    /** Move the guarantee to `t` and check every object registered at a version below it. */
    method MoveGuaranteedLowestIdForward(t: TransactionId)
      requires Valid()
      modifies this
      ensures Valid()
      ensures guaranteedLowestId == Max(old(guaranteedLowestId), t)
      ensures hist == if t <= old(guaranteedLowestId) then old(hist)
                        else Collected(old(hist), t, DueBelow(old(versionNumbersToCheck), t))
      ensures old(guaranteedLowestId) < t ==> DueBelow(versionNumbersToCheck, t) == {}
      ensures old(guaranteedLowestId) < t ==>
                forall o, u :: IsQueued(versionNumbersToCheck, o, u)
                  <==> t <= u && old(IsQueued(versionNumbersToCheck, o, u))
      ensures old(guaranteedLowestId) < t ==>
                forall o, u :: u < t && old(IsQueued(versionNumbersToCheck, o, u)) ==> NothingToCollect(hist, o, t)
    {
      if t <= guaranteedLowestId {
        return;
      }
      hide Collected, Chained, HistoryOf, HiddenAreQueued, NothingToCollect;
      ghost var h0 := hist;
      ghost var done: set<ObjectId> := {};
      guaranteedLowestId := t;
      NothingChecked(h0, t);
      while versionNumbersToCheck != map[] && LeastKey(versionNumbersToCheck) < t
        invariant MapsValid() && guaranteedLowestId == t
        invariant forall p, u :: t <= u ==>
                    (IsQueued(versionNumbersToCheck, p, u) <==> old(IsQueued(versionNumbersToCheck, p, u)))
        invariant hist == Collected(h0, t, done)
        invariant done + DueBelow(versionNumbersToCheck, t) == old(DueBelow(versionNumbersToCheck, t))
        decreases versionNumbersToCheck.Keys
      {
        var lowestId := LeastKey(versionNumbersToCheck);
        var toCheck := versionNumbersToCheck[lowestId];
        DueBelowSplit(versionNumbersToCheck, lowestId, t);
        versionNumbersToCheck := versionNumbersToCheck - {lowestId};
        CheckObjects(toCheck, h0, done);
        done := done + toCheck;
      }
      assert DueBelow(versionNumbersToCheck, t) == {};
      ConsumedIsBelow(h0, hist, old(versionNumbersToCheck), versionNumbersToCheck, old(guaranteedLowestId), t);
      CollectedLeavesNothing(h0, t, done);
      DueIfQueued(old(versionNumbersToCheck), t);
    }

    /** The inner loop: check each of the objects taken off the queue. */
    method CheckObjects(toCheck: set<ObjectId>, ghost h0: History, ghost done: set<ObjectId>)
      requires MapsValid() && hist == Collected(h0, guaranteedLowestId, done)
      modifies this`minMaxVersions, this`priorAndNext, this`serializedValues, this`deletedValues, this`hist
      ensures MapsValid() && hist == Collected(h0, guaranteedLowestId, done + toCheck)
    {
      var left := toCheck;
      ghost var checked := done;
      while left != {}
        invariant MapsValid() && left <= toCheck && checked == done + (toCheck - left)
        invariant hist == Collected(h0, guaranteedLowestId, checked)
        decreases left
      {
        ghost var some := AnElement(left);
        var o :| o in left;
        CollectedOneMore(h0, guaranteedLowestId, checked, o);
        RemoveLowestIfPossible(o);
        checked := checked + {o};
        left := left - {o};
      }
      assert checked == done + toCheck;
    }
  }

  /** Once the guarantee has reached a write of an object, the last version that it hides is gone, and so is the
      object once it has reached its deletion. */
  method WriteAndCollect(s: VersionedObjectsOfMultiType, o: ObjectId, version: TransactionId, data: Option<Bytes>,
                         t: TransactionId)
    returns (done: bool)
    requires s.Valid() && 0 <= version <= t && s.guaranteedLowestId < t
    modifies s
    ensures s.Valid() && s.guaranteedLowestId == t
    ensures done && (exists top :: IsTop(old(s.hist), o, top) && (top < version || version < t)) ==>
              forall u, n :: ObjectAndVersion(o, u) in s.hist && ObjectAndVersion(o, n) in s.hist && u < n ==> t < n
    ensures done && data.None? ==> forall u :: ObjectAndVersion(o, u) !in s.hist
  {
    hide VersionedObjectsOfMultiType.Valid, ComesToBeHidden, IsQueued, DueBelow, WithValue, WithDeletion, CanDelete;
    hide Collected, NothingToCollect, IsTop, Versions, ReadAt;
    ghost var h := s.hist;
    done := WriteOrDelete(s, o, version, data);
    ghost var h', q := s.hist, s.versionNumbersToCheck;
    if done && exists top :: IsTop(h, o, top) && (top < version || version < t) {
      QueuedBelow(h, q, o, version, t);
    }
    s.MoveGuaranteedLowestIdForward(t);
    if exists u :: u < t && IsQueued(q, o, u) {
      NothingIsLeft(s.hist, o, t);
    }
    if done && data.None? {
      DeletedIsGone(h, q, o, version, t);
    }
  }

  method WriteOrDelete(s: VersionedObjectsOfMultiType, o: ObjectId, version: TransactionId, data: Option<Bytes>)
    returns (done: bool)
    requires s.Valid() && 0 <= version
    modifies s
    ensures s.Valid() && s.guaranteedLowestId == old(s.guaranteedLowestId)
    ensures done ==> forall u :: ComesToBeHidden(old(s.hist), o, version, u) ==> IsQueued(s.versionNumbersToCheck, o, u)
    ensures done && data.None? ==> CanDelete(old(s.hist), o, version) && s.hist == WithDeletion(old(s.hist), o, version)
  {
    hide VersionedObjectsOfMultiType.Valid, ComesToBeHidden, IsQueued, WithValue, WithDeletion, CanDelete;
    if data.Some? {
      done := s.Add(o, version, data.value);
    } else {
      done := s.MarkDeleted(o, version);
    }
  }

  lemma QueuedBelow(h: History, q: CheckQueue, o: ObjectId, version: TransactionId, t: TransactionId)
    requires version <= t && exists top :: IsTop(h, o, top) && (top < version || version < t)
    requires forall u :: ComesToBeHidden(h, o, version, u) ==> IsQueued(q, o, u)
    ensures exists u :: u < t && IsQueued(q, o, u)
  {
    var top :| IsTop(h, o, top) && (top < version || version < t);
    assert ComesToBeHidden(h, o, version, Min(top, version));
  }

  lemma NothingIsLeft(h: History, o: ObjectId, t: TransactionId)
    requires NothingToCollect(h, o, t)
    ensures forall u, n :: ObjectAndVersion(o, u) in h && ObjectAndVersion(o, n) in h && u < n ==> t < n
  {
  }

  lemma DeletedIsGone(h: History, q: CheckQueue, o: ObjectId, version: TransactionId, t: TransactionId)
    requires CanDelete(h, o, version) && version <= t
    requires forall u :: ComesToBeHidden(h, o, version, u) ==> IsQueued(q, o, u)
    ensures forall u :: ObjectAndVersion(o, u) !in Collected(WithDeletion(h, o, version), t, DueBelow(q, t))
  {
    var top :| IsTop(h, o, top) && top < version;
    assert ComesToBeHidden(h, o, version, top);
    DueIfQueued(q, t);
    assert IsTop(WithDeletion(h, o, version), o, version);
    assert Gone(WithDeletion(h, o, version), t, o);
  }

  const FIRST: History := map[ObjectAndVersion(7, 1) := Written([1])]
  const BOTH: History := map[ObjectAndVersion(7, 1) := Written([1]), ObjectAndVersion(7, 3) := Written([3])]

  /** A check can be consumed too early: version 1 is checked at 2, when it is still needed by readers below 3, and
      never again, though from 3 on it is of no use. */
  method CheckedTooEarly() returns (s: VersionedObjectsOfMultiType)
    ensures s.Valid() && s.guaranteedLowestId == 4 && forall o, u :: !IsQueued(s.versionNumbersToCheck, o, u)
    ensures ObjectAndVersion(7, 1) in s.hist && ObjectAndVersion(7, 3) in s.hist
  {
    hide VersionedObjectsOfMultiType.Valid, ComesToBeHidden, IsQueued, DueBelow, WithValue, WithDeletion, CanDelete;
    hide Collected, NothingToCollect, IsTop, Versions, ReadAt;
    NothingQueued();
    FirstAndBoth();
    s := new VersionedObjectsOfMultiType();
    var done := s.Add(7, 1, [1]);
    done := s.Add(7, 3, [3]);
    KeptAtTwo(s.versionNumbersToCheck);
    s.MoveGuaranteedLowestIdForward(2);
    NothingDue(s.versionNumbersToCheck, 4);
    s.MoveGuaranteedLowestIdForward(4);
  }

  lemma NothingQueued()
    ensures forall o, u :: !IsQueued(map[], o, u)
  {
  }

  lemma FirstAndBoth()
    ensures WithValue(map[], 7, 1, [1]) == FIRST && WithValue(FIRST, 7, 3, [3]) == BOTH
    ensures forall u :: !ComesToBeHidden(map[], 7, 1, u)
    ensures forall u :: ComesToBeHidden(FIRST, 7, 3, u) <==> u == 1
    ensures ObjectAndVersion(7, 3) !in FIRST && ObjectAndVersion(7, 1) in BOTH && ObjectAndVersion(7, 3) in BOTH
  {
    assert IsTop(FIRST, 7, 1);
  }

  lemma KeptAtTwo(q: CheckQueue)
    ensures Collected(BOTH, 2, DueBelow(q, 2)) == BOTH
  {
    assert IsTop(BOTH, 7, 3);
  }

  lemma NothingDue(q: CheckQueue, t: TransactionId)
    requires forall o, u :: u < t ==> !IsQueued(q, o, u)
    ensures DueBelow(q, t) == {} && Collected(BOTH, t, DueBelow(q, t)) == BOTH
  {
    forall o
      ensures o !in DueBelow(q, t)
    {
      if o in DueBelow(q, t) {
        var u :| u in q && u < t && o in q[u];
        assert IsQueued(q, o, u);
      }
    }
  }

  function LeastKey(q: CheckQueue): TransactionId
    requires q != map[]
  {
    assert q.Keys != {};
    Least(q.Keys)
  }

  lemma DueBelowSplit(q: CheckQueue, first: TransactionId, t: TransactionId)
    requires first in q && first < t
    ensures DueBelow(q, t) == q[first] + DueBelow(q - {first}, t)
  {
    var rest := q - {first};
    forall o
      ensures o in DueBelow(q, t) <==> o in q[first] + DueBelow(rest, t)
    {
      if o in DueBelow(q, t) {
        var v :| v in q && v < t && o in q[v];
        assert v == first || (v in rest && rest[v] == q[v]);
      }
      if o in DueBelow(rest, t) {
        var v :| v in rest && v < t && o in rest[v];
        assert v in q && q[v] == rest[v];
      }
    }
  }

  /** The next version up is the least one left once the bottom is dropped. */
  lemma AboveStep(h: History, o: ObjectId, bottom: TransactionId, s: Versioned, next: TransactionId)
    requires Above(h, o, bottom).Keys == s && ObjectAndVersion(o, bottom) in s && IsNext(s, o, bottom, next)
    ensures if next == NO_TRANSACTION then Above(h, o, bottom) - {ObjectAndVersion(o, bottom)} == Without(h, o)
            else Above(h, o, bottom) - {ObjectAndVersion(o, bottom)} == Above(h, o, next)
                 && ObjectAndVersion(o, next) in h
    ensures forall u :: ObjectAndVersion(o, u) in h && bottom < u ==> next != NO_TRANSACTION && next <= u
  {
  }

  lemma BottomOfChain(bounds: Bounds, links: Links, o: ObjectId)
    requires Chained(bounds, links) && o in bounds
    ensures AreBounds(links.Keys, o, bounds[o]) && 0 <= bounds[o].min
  {
    assert AreBounds(links.Keys, o, bounds[o]);
    var k := ObjectAndVersion(o, bounds[o].min);
    assert LinkOk(links.Keys, k, links[k]);
  }
}
