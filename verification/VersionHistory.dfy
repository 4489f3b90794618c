/** The meaning of a multi-version store of one field: which object was written, deleted or
    left alone at which transaction, and what a reader at a given transaction sees. */
module VersionHistory {
  import opened Common
  import opened OrderedSets

  datatype ObjectAndVersion = ObjectAndVersion(objectId: ObjectId, version: TransactionId)

  datatype Entry = Deleted | Written(data: Bytes)

  type History = map<ObjectAndVersion, Entry>

  /** The versions recorded for one object. */
  ghost function Versions(h: History, o: ObjectId): (vs: set<TransactionId>)
    ensures forall t :: t in vs <==> ObjectAndVersion(o, t) in h
  {
    var vs := set k | k in h && k.objectId == o :: k.version;
    assert forall t :: ObjectAndVersion(o, t) in h ==> ObjectAndVersion(o, t).version in vs;
    vs
  }

  /** What a reader at `v` sees of object `o`: the last version not above `v`, unless it is a deletion. */
  ghost function ReadAt(h: History, o: ObjectId, v: TransactionId): Option<Bytes> {
    match Floor(Versions(h, o), v)
    case None => None
    case Some(b) => if h[ObjectAndVersion(o, b)].Deleted? then None else Some(h[ObjectAndVersion(o, b)].data)
  }

  ghost predicate IsTop(h: History, o: ObjectId, t: TransactionId) {
    ObjectAndVersion(o, t) in h && forall u :: ObjectAndVersion(o, u) in h ==> u <= t
  }

  /** `add` writes a value, but cannot overwrite a deletion made by the same transaction. */
  function WithValue(h: History, o: ObjectId, v: TransactionId, data: Bytes): History {
    var k := ObjectAndVersion(o, v);
    if k in h && h[k].Deleted? then h else h[k := Written(data)]
  }

  /** `markDeleted` only acts above a last version that is not itself a deletion. */
  ghost predicate CanDelete(h: History, o: ObjectId, v: TransactionId) {
    exists t :: IsTop(h, o, t) && t < v && h[ObjectAndVersion(o, t)].Written?
  }

  lemma CanDeleteAbove(h: History, o: ObjectId, v: TransactionId, top: TransactionId)
    requires if top == NO_TRANSACTION then forall u :: ObjectAndVersion(o, u) !in h else IsTop(h, o, top)
    ensures CanDelete(h, o, v) <==> top != NO_TRANSACTION && top < v && h[ObjectAndVersion(o, top)].Written?
  {
  }

  function WithDeletion(h: History, o: ObjectId, v: TransactionId): History {
    h[ObjectAndVersion(o, v) := Deleted]
  }

  /** A reader at or above `low` can never reach this version, because a later one hides it. */
  ghost predicate Superseded(h: History, low: TransactionId, k: ObjectAndVersion) {
    exists n :: ObjectAndVersion(k.objectId, n) in h && k.version < n <= low
  }

  /** The object's last version is a deletion that every reader at or above `low` sees. */
  ghost predicate Gone(h: History, low: TransactionId, o: ObjectId) {
    exists t :: IsTop(h, o, t) && t <= low && h[ObjectAndVersion(o, t)].Deleted?
  }

  /** Garbage collection at `low`, looking only at the objects `objs`. */
  ghost function Collected(h: History, low: TransactionId, objs: set<ObjectId>): History {
    map k | k in h && !(k.objectId in objs && (Superseded(h, low, k) || Gone(h, low, k.objectId))) :: h[k]
  }

  /** Collecting never changes a read at or above the collection level, deleted objects included. */
  lemma CollectedKeepsReads(h: History, low: TransactionId, objs: set<ObjectId>, o: ObjectId, v: TransactionId)
    requires low <= v
    ensures ReadAt(Collected(h, low, objs), o, v) == ReadAt(h, o, v)
  {
    var c := Collected(h, low, objs);
    assert forall t :: t in Versions(c, o) ==> t in Versions(h, o);
    match Floor(Versions(h, o), v)
    case None =>
      assert Floor(Versions(c, o), v) == None;
    case Some(b) =>
      var k := ObjectAndVersion(o, b);
      assert !Superseded(h, low, k);
      if k in c {
        assert IsFloor(Versions(c, o), v, b);
        assert Floor(Versions(c, o), v) == Some(b);
      } else {
        assert Gone(h, low, o);
        assert forall t :: ObjectAndVersion(o, t) !in c;
        assert Floor(Versions(c, o), v) == None;
      }
  }

  /** Collecting one more object is collecting a larger set of objects. */
  lemma CollectedOneMore(h: History, low: TransactionId, objs: set<ObjectId>, o: ObjectId)
    ensures Collected(Collected(h, low, objs), low, {o}) == Collected(h, low, objs + {o})
  {
  }

  /** What is left of `h` once the versions of `o` below `bottom` are dropped. */
  ghost function Above(h: History, o: ObjectId, bottom: TransactionId): History {
    map k | k in h && !(k.objectId == o && k.version < bottom) :: h[k]
  }

  ghost function Without(h: History, o: ObjectId): History {
    map k | k in h && k.objectId != o :: h[k]
  }

  /** Dropping everything below the last version not above `low` is what collection does to a live object. */
  lemma CollectedAbove(h: History, low: TransactionId, o: ObjectId, top: TransactionId, bottom: TransactionId)
    requires IsTop(h, o, top) && !(top <= low && h[ObjectAndVersion(o, top)].Deleted?)
    requires ObjectAndVersion(o, bottom) in h
    requires forall u :: ObjectAndVersion(o, u) in h && u < bottom ==> bottom <= low
    requires bottom == top || low <= bottom || forall u :: ObjectAndVersion(o, u) in h && bottom < u ==> low < u
    ensures Above(h, o, bottom) == Collected(h, low, {o})
  {
  }

  /** Adding a version changes exactly the reads between it and the next version. */
  lemma WithValueReads(h: History, o: ObjectId, v: TransactionId, data: Bytes, p: ObjectId, w: TransactionId)
    requires ObjectAndVersion(o, v) in h ==> h[ObjectAndVersion(o, v)].Written?
    ensures ReadAt(WithValue(h, o, v, data), p, w)
            == if p == o && v <= w && (forall u :: ObjectAndVersion(o, u) in h && v < u ==> w < u)
               then Some(data) else ReadAt(h, p, w)
  {
  }

  lemma WithDeletionReads(h: History, o: ObjectId, v: TransactionId, p: ObjectId, w: TransactionId)
    ensures ReadAt(WithDeletion(h, o, v), p, w)
            == if p == o && v <= w && (forall u :: ObjectAndVersion(o, u) in h && v < u ==> w < u)
               then None else ReadAt(h, p, w)
  {
  }
}
