/** The simple meaning behind every store in the model: the contents of the database after
    a sequence of transactions, with no versions, caches or garbage collection. */
module Database {
  import opened Common

  datatype Membership = Membership(index: IndexId, objId: ObjectId)

  datatype Database = Database(fields: map<ObjectFieldId, Bytes>, members: set<Membership>)

  /** What one committed transaction changes. A write of None deletes the field. */
  datatype Transaction = Transaction(
    tid: TransactionId,
    writes: map<ObjectFieldId, Option<Bytes>>,
    setAdds: map<IndexId, set<ObjectId>>,
    setRemoves: map<IndexId, set<ObjectId>>)

  type Log = seq<Transaction>

  const EMPTY: Database := Database(map[], {})

  /** The pairs listed by an index update. */
  function Pairs(m: map<IndexId, set<ObjectId>>): (s: set<Membership>)
    ensures forall i, o :: Membership(i, o) in s <==> i in m && o in m[i]
  {
    set i, o | i in m && o in m[i] :: Membership(i, o)
  }

  /** The object is listed in the index field under `value`, and under nothing else. */
  ghost predicate EntriesAre(members: set<Membership>, i: FieldId, value: Option<Bytes>, o: ObjectId) {
    forall v :: Membership(IndexId(i, v), o) in members <==> value == Some(v)
  }

  /** Adds first, then removes. */
  function Apply(db: Database, t: Transaction): Database {
    Database(Updated(db.fields, t.writes), db.members + Pairs(t.setAdds) - Pairs(t.setRemoves))
  }

  /** The contents as of transaction `v`. */
  function StateAt(log: Log, v: TransactionId): Database {
    if log == [] then EMPTY
    else
      var last := log[|log| - 1];
      var before := StateAt(log[..|log| - 1], v);
      if last.tid <= v then Apply(before, last) else before
  }

  /** No transaction above `v` can be seen at `v`, however many follow. */
  lemma {:induction false} LaterTransactionsInvisible(log: Log, more: Log, v: TransactionId)
    requires forall t :: t in more ==> v < t.tid
    ensures StateAt(log + more, v) == StateAt(log, v)
  {
    if more == [] {
      assert log + more == log;
    } else {
      var front := more[..|more| - 1];
      assert (log + more)[..|log + more| - 1] == log + front;
      LaterTransactionsInvisible(log, front, v);
    }
  }

  lemma StateAtAppend(log: Log, t: Transaction, v: TransactionId)
    ensures StateAt(log + [t], v) == if t.tid <= v then Apply(StateAt(log, v), t) else StateAt(log, v)
  {
  }

  /** The contents after the whole log, whatever its numbers. */
  function Replay(log: Log): Database {
    if log == [] then EMPTY else Apply(Replay(log[..|log| - 1]), log[|log| - 1])
  }

  lemma ReplayAppend(log: Log, t: Transaction)
    ensures Replay(log + [t]) == Apply(Replay(log), t)
  {
  }

  lemma {:induction false} StateAtEnd(log: Log, v: TransactionId)
    requires forall t :: t in log ==> t.tid <= v
    ensures StateAt(log, v) == Replay(log)
  {
    if log != [] {
      StateAtEnd(log[..|log| - 1], v);
    }
  }

  predicate ListsIndex(t: Transaction, i: IndexId) {
    i in t.setAdds || i in t.setRemoves
  }

  /** A field nobody wrote in between reads the same at both transactions. */
  lemma {:induction false} FieldUntouched(log: Log, k: ObjectFieldId, a: TransactionId, b: TransactionId)
    requires a <= b && forall t :: t in log && k in t.writes ==> t.tid <= a || b < t.tid
    ensures Lookup(StateAt(log, a).fields, k) == Lookup(StateAt(log, b).fields, k)
  {
    if log != [] {
      FieldUntouched(log[..|log| - 1], k, a, b);
      assert log[|log| - 1] in log;
    }
  }

  /** So does an index value no transaction listed. */
  lemma {:induction false} IndexUntouched(log: Log, i: IndexId, o: ObjectId, a: TransactionId, b: TransactionId)
    requires a <= b && forall t :: t in log && ListsIndex(t, i) ==> t.tid <= a || b < t.tid
    ensures Membership(i, o) in StateAt(log, a).members <==> Membership(i, o) in StateAt(log, b).members
  {
    if log != [] {
      IndexUntouched(log[..|log| - 1], i, o, a, b);
      assert log[|log| - 1] in log;
    }
  }

  /** The transaction writes to the field, or lists one of its index values. */
  ghost predicate ChangesField(t: Transaction, f: FieldId) {
    (exists k :: k in t.writes && k.fieldId == f) || exists i :: ListsIndex(t, i) && i.fieldId == f
  }

  /** The transaction writes to the object, or lists it in an index. */
  ghost predicate ChangesObject(t: Transaction, o: ObjectId) {
    || (exists k :: k in t.writes && k.objId == o)
    || (exists m :: m in Pairs(t.setAdds) + Pairs(t.setRemoves) && m.objId == o)
  }

  /** The fields a transaction writes to or re-indexes. */
  function TouchedFields(t: Transaction): (s: set<FieldId>)
    ensures forall k :: k in t.writes ==> k.fieldId in s
    ensures forall i :: ListsIndex(t, i) ==> i.fieldId in s
    ensures forall f :: f in s <==> ChangesField(t, f)
  {
    (set k | k in t.writes :: k.fieldId) + (set i | i in t.setAdds.Keys + t.setRemoves.Keys :: i.fieldId)
  }

  /** The two databases hold the same for one field: its values and its index entries. */
  ghost predicate SameField(a: Database, b: Database, f: FieldId) {
    && (forall k: ObjectFieldId :: k.fieldId == f ==> Lookup(a.fields, k) == Lookup(b.fields, k))
    && (forall m: Membership :: m.index.fieldId == f ==> (m in a.members <==> m in b.members))
  }

  /** From transaction `since` on, a reader of log `c` sees of field `f` what log `s` holds. */
  ghost predicate Mirrors(c: Log, s: Log, f: FieldId, since: TransactionId) {
    forall v :: since <= v ==> SameField(StateAt(c, v), StateAt(s, v), f)
  }

  /** Whatever touched the field after `since` also touched one of the fields `via`. */
  ghost predicate Carried(log: Log, f: FieldId, since: TransactionId, via: set<FieldId>) {
    forall t :: t in log && since < t.tid && f in TouchedFields(t) ==> exists g :: g in via && g in TouchedFields(t)
  }

  lemma CarriedStep(log: Log, t: Transaction, f: FieldId, since: TransactionId, via: set<FieldId>)
    requires Carried(log + [t], f, since, via)
    ensures Carried(log, f, since, via)
    ensures since < t.tid && f in TouchedFields(t) ==> exists g :: g in via && g in TouchedFields(t)
  {
    assert t in log + [t] && forall x :: x in log ==> x in log + [t];
  }

  lemma CarriedByItself(log: Log, f: FieldId, since: TransactionId, via: set<FieldId>)
    requires f in via
    ensures Carried(log, f, since, via)
  {
  }

  /** A transaction may be passed on to a mirror, and must be if it touches the field. */
  lemma MirrorsStep(c: Log, s: Log, f: FieldId, since: TransactionId, t: Transaction, passedOn: bool)
    requires Mirrors(c, s, f, since) && (f in TouchedFields(t) ==> passedOn)
    ensures Mirrors(if passedOn then c + [t] else c, s + [t], f, since)
  {
    var c' := if passedOn then c + [t] else c;
    forall v | since <= v
      ensures SameField(StateAt(c', v), StateAt(s + [t], v), f)
    {
      assert SameField(StateAt(c, v), StateAt(s, v), f);
      StateAtAppend(s, t, v);
      StateAtAppend(c, t, v);
      ApplyKeepsSameField(StateAt(c, v), StateAt(s, v), f, t);
    }
  }

  lemma ApplyKeepsSameField(a: Database, b: Database, f: FieldId, t: Transaction)
    requires SameField(a, b, f)
    ensures SameField(Apply(a, t), Apply(b, t), f)
    ensures f !in TouchedFields(t) ==> SameField(a, Apply(b, t), f)
  {
  }

  /** The two databases hold the same for one object: all its fields and index entries. */
  ghost predicate SameObject(a: Database, b: Database, o: ObjectId) {
    && (forall k: ObjectFieldId :: k.objId == o ==> Lookup(a.fields, k) == Lookup(b.fields, k))
    && (forall m: Membership :: m.objId == o ==> (m in a.members <==> m in b.members))
  }

  /** From transaction `since` on, a reader of log `c` sees of the object what log `s` holds. */
  ghost predicate MirrorsObject(c: Log, s: Log, o: ObjectId, since: TransactionId) {
    forall v :: since <= v ==> SameObject(StateAt(c, v), StateAt(s, v), o)
  }

  /** A transaction may be passed on to who follows an object, and must be if it changes it. */
  lemma ObjectMirrorsStep(c: Log, s: Log, o: ObjectId, since: TransactionId, t: Transaction, passedOn: bool)
    requires MirrorsObject(c, s, o, since) && (ChangesObject(t, o) ==> passedOn)
    ensures MirrorsObject(if passedOn then c + [t] else c, s + [t], o, since)
  {
    var c' := if passedOn then c + [t] else c;
    forall v | since <= v
      ensures SameObject(StateAt(c', v), StateAt(s + [t], v), o)
    {
      assert SameObject(StateAt(c, v), StateAt(s, v), o);
      StateAtAppend(s, t, v);
      StateAtAppend(c, t, v);
      ApplyKeepsSameObject(StateAt(c, v), StateAt(s, v), o, t);
    }
  }

  lemma ApplyKeepsSameObject(a: Database, b: Database, o: ObjectId, t: Transaction)
    requires SameObject(a, b, o)
    ensures SameObject(Apply(a, t), Apply(b, t), o)
    ensures !ChangesObject(t, o) ==> SameObject(a, Apply(b, t), o)
  {
  }

  /** A log that never touches a field holds nothing for it. */
  lemma {:induction false} NeverTouched(log: Log, f: FieldId, v: TransactionId)
    requires forall t :: t in log ==> f !in TouchedFields(t)
    ensures SameField(StateAt(log, v), EMPTY, f)
  {
    if log != [] {
      NeverTouched(log[..|log| - 1], f, v);
      assert log[|log| - 1] in log;
      ApplyKeepsSameField(EMPTY, StateAt(log[..|log| - 1], v), f, log[|log| - 1]);
    }
  }

  /** Some logged transaction numbered `v` writes `k`. */
  ghost predicate WrittenAt(log: Log, k: ObjectFieldId, v: TransactionId) {
    exists t :: t in log && t.tid == v && k in t.writes
  }

  /** A write repeated for a transaction number already logged repeats the value known for it. */
  ghost predicate Agrees(log: Log, t: Transaction) {
    forall k :: k in t.writes && WrittenAt(log, k, t.tid) ==> t.writes[k] == Lookup(StateAt(log, t.tid).fields, k)
  }

  /** A client can apply the messages one by one: numbers never fall, and data repeated for the number
      last seen repeats what is known. */
  ghost predicate Deliverable(c: Log) {
    forall n :: 0 <= n < |c| ==> DeliverableAt(c, n)
  }

  ghost predicate DeliverableAt(c: Log, n: nat)
    requires n < |c|
  {
    0 <= c[n].tid && (forall t :: t in c[..n] ==> t.tid <= c[n].tid) && Agrees(c[..n], c[n])
  }

  /** Messages deliverable so far, none numbered above `latest`, and those numbered `latest` telling what `db` holds. */
  ghost predicate InStep(c: Log, latest: TransactionId, db: Database) {
    && Deliverable(c)
    && (forall t :: t in c ==> t.tid <= latest)
    && (forall t, k :: t in c && t.tid == latest && k in t.writes ==> t.writes[k] == Lookup(db.fields, k))
  }

  lemma InStepAppend(c: Log, latest: TransactionId, db: Database, t: Transaction)
    requires Deliverable(c) && 0 <= t.tid && forall x :: x in c ==> x.tid <= t.tid
    requires Agrees(c, t) && forall k :: k in t.writes ==> t.writes[k] == Lookup(db.fields, k)
    requires forall x, k :: x in c && x.tid == t.tid && k in x.writes ==> x.writes[k] == Lookup(db.fields, k)
    ensures InStep(c + [t], t.tid, db)
  {
    forall n | 0 <= n < |c + [t]|
      ensures DeliverableAt(c + [t], n)
    {
      assert (c + [t])[..n] == if n < |c| then c[..n] else c;
      assert n < |c| ==> DeliverableAt(c, n);
    }
    assert forall x :: x in c + [t] <==> x in c || x == t;
  }

  /** A transaction numbered above all before it repeats nothing. */
  lemma NewNumberAgrees(c: Log, t: Transaction)
    requires forall x :: x in c ==> x.tid < t.tid
    ensures Agrees(c, t)
  {
  }

  /** Data read off `db` at the latest number agrees with what was sent for that number. */
  lemma CurrentDataAgrees(c: Log, latest: TransactionId, db: Database, t: Transaction)
    requires InStep(c, latest, db) && t.tid == latest
    requires forall k :: k in t.writes ==> t.writes[k] == Lookup(db.fields, k)
    ensures Agrees(c, t)
  {
    forall k | k in t.writes && WrittenAt(c, k, t.tid)
      ensures t.writes[k] == Lookup(StateAt(c, t.tid).fields, k)
    {
      LastWriteTells(c, latest, db, k);
    }
  }

  lemma {:induction false} LastWriteTells(c: Log, latest: TransactionId, db: Database, k: ObjectFieldId)
    requires InStep(c, latest, db) && WrittenAt(c, k, latest)
    ensures Lookup(StateAt(c, latest).fields, k) == Lookup(db.fields, k)
  {
    var n := |c| - 1;
    var front, last := c[..n], c[n];
    assert last in c && DeliverableAt(c, n);
    if k in last.writes {
      var t :| t in c && t.tid == latest && k in t.writes;
      assert t in front || t == last;
    } else {
      var t :| t in c && t.tid == latest && k in t.writes;
      assert t in front;
      forall i | 0 <= i < n
        ensures DeliverableAt(front, i)
      {
        assert DeliverableAt(c, i) && front[..i] == c[..i];
      }
      LastWriteTells(front, latest, db, k);
    }
  }
}
