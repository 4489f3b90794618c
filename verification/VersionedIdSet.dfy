/** object_database/VersionedIdSet.hpp: a set of object ids whose membership changes
    from transaction to transaction, kept as two transposed maps of membership events
    above a compacted base set. */
module VersionedIdSets {
  import opened Common
  import opened OrderedSets

  type Events = map<TransactionId, map<ObjectId, bool>>
  type Timelines = map<ObjectId, map<TransactionId, bool>>

  /** The membership events recorded for one object. */
  function Timeline(b: Timelines, o: ObjectId): map<TransactionId, bool> {
    if o in b then b[o] else map[]
  }

  /** The last event at or before `t` decides; before every event, the base set does. */
  ghost function ActiveAt(events: map<TransactionId, bool>, base: bool, t: TransactionId): bool {
    match Floor(events.Keys, t)
    case None => base
    case Some(u) => events[u]
  }

  /** The two maps hold the same events and no empty inner map. */
  ghost predicate Transposed(a: Events, b: Timelines) {
    && (forall t, o :: t in a && o in a[t] ==> o in b && t in b[o] && b[o][t] == a[t][o])
    && (forall o, t :: o in b && t in b[o] ==> t in a && o in a[t])
    && (forall t :: t in a ==> a[t] != map[])
    && (forall o :: o in b ==> b[o] != map[])
  }

  /** The number of events, first transaction first. */
  ghost function EventCount(a: Events): nat {
    if a == map[] then 0
    else
      assert a.Keys != {};
      var first := Least(a.Keys);
      |a[first]| + EventCount(a - {first})
  }

  datatype Moment = Moment(tid: TransactionId, objId: ObjectId)

  /** Every object that is added or removed, and when. */
  ghost function MomentsOf(a: Events): set<Moment> {
    set t, o | t in a && o in a[t] :: Moment(t, o)
  }

  lemma {:induction false} EventCountIsSize(a: Events)
    ensures EventCount(a) == |MomentsOf(a)|
    decreases a.Keys
  {
    if a == map[] {
      assert MomentsOf(a) == {};
    } else {
      assert a.Keys != {};
      var first := Least(a.Keys);
      EventCountIsSize(a - {first});
      MomentsSplit(a, first);
    }
  }

  lemma MomentsSplit(a: Events, t: TransactionId)
    requires t in a
    ensures |MomentsOf(a)| == |a[t]| + |MomentsOf(a - {t})|
  {
    MomentsAt(t, a[t]);
    var here := set o | o in a[t] :: Moment(t, o);
    assert forall m :: m in MomentsOf(a) <==> m in here || m in MomentsOf(a - {t});
    assert MomentsOf(a) == here + MomentsOf(a - {t}) && here !! MomentsOf(a - {t});
  }

  lemma {:induction false} MomentsAt<V>(t: TransactionId, m: map<ObjectId, V>)
    ensures |set o | o in m :: Moment(t, o)| == |m|
    decreases m.Keys
  {
    if m == map[] {
      assert (set o | o in m :: Moment(t, o)) == {};
    } else {
      assert m.Keys != {};
      var o := Least(m.Keys);
      MomentsAt(t, m - {o});
      assert (set p | p in m :: Moment(t, p)) == (set p | p in m - {o} :: Moment(t, p)) + {Moment(t, o)};
      assert m == (m - {o})[o := m[o]];
    }
  }

  /** Do the timelines and the base set make object `m.objId` active at `m.tid`? */
  ghost predicate Active(b: Timelines, present: set<ObjectId>, m: Moment) {
    ActiveAt(Timeline(b, m.objId), m.objId in present, m.tid)
  }

  ghost predicate Means(members: iset<Moment>, b: Timelines, present: set<ObjectId>) {
    forall m {:trigger Active(b, present, m)} :: m in members <==> Active(b, present, m)
  }

  class VersionedIdSet {
    var guaranteedLowestId: TransactionId
    var presentAtLowestId: set<ObjectId>
    var transToObj: Events
    var objToTrans: Timelines

    /** The abstract meaning of the fields above. */
    ghost var members: iset<Moment>

    ghost predicate Valid()
      reads this
    {
      && Transposed(transToObj, objToTrans)
      && (forall t :: t in transToObj ==> guaranteedLowestId <= t)
      && Means(members, objToTrans, presentAtLowestId)
    }

    /** Is `o` in the set as of transaction `t`? */
    ghost predicate Member(t: TransactionId, o: ObjectId)
      reads this`members
    {
      Moment(t, o) in members
    }

    constructor ()
      ensures Valid()
      ensures guaranteedLowestId == NO_TRANSACTION
      ensures presentAtLowestId == {} && transToObj == map[] && members == iset{}
    {
      guaranteedLowestId := NO_TRANSACTION;
      presentAtLowestId := {};
      transToObj := map[];
      objToTrans := map[];
      members := iset{};
    }

    method Empty() returns (r: bool)
      requires Valid()
      ensures r <==> transToObj == map[] && presentAtLowestId == {}
      ensures r ==> members == iset{}
    {
      r := objToTrans == map[] && presentAtLowestId == {};
      EventsHaveObjects(transToObj, objToTrans);
      forall m: Moment | r
        ensures m !in members
      {
        assert !Active(objToTrans, presentAtLowestId, m);
      }
    }

    function NextTransactionToMoveForwardOn(): (r: TransactionId)
      reads this
      ensures transToObj == map[] ==> r == NO_TRANSACTION
      ensures transToObj != map[] ==> IsLeast(transToObj.Keys, r)
    {
      if transToObj == map[] then NO_TRANSACTION
      else
        assert transToObj.Keys != {};
        Least(transToObj.Keys)
    }

    method IsActive(t: TransactionId, o: ObjectId) returns (r: Result<bool>)
      requires Valid()
      ensures r == if t < guaranteedLowestId then Thrown else Ok(Member(t, o))
    {
      assert Member(t, o) <==> Active(objToTrans, presentAtLowestId, Moment(t, o));
      if t < guaranteedLowestId {
        return Thrown;
      }
      if o !in objToTrans {
        return Ok(o in presentAtLowestId);
      }
      var times := objToTrans[o];
      assert times.Keys != {};
      var it := LowerBound(times.Keys, t);
      match it
      case None =>
        return Ok(times[Greatest(times.Keys)]);
      case Some(at) =>
        if at == t {
          return Ok(times[at]);
        }
        if at == Least(times.Keys) {
          return Ok(o in presentAtLowestId);
        }
        var before := Predecessor(times.Keys, at);
        return Ok(times[before]);
    }

    /** The least active object above `o`, or NO_OBJECT. */
    ghost predicate IsNext(t: TransactionId, o: ObjectId, r: ObjectId)
      reads this
    {
      if r == NO_OBJECT then
        forall j :: o < j ==> !Member(t, j)
      else
        o < r && Member(t, r) && forall j :: o < j < r ==> !Member(t, j)
    }

    method LookupNext(t: TransactionId, o: ObjectId) returns (r: Result<ObjectId>)
      requires Valid() && NO_OBJECT <= o
      ensures guaranteedLowestId <= t ==> r.Ok? && IsNext(t, o, r.value)
      ensures r.Ok? ==> r.value == NO_OBJECT || o < r.value
      ensures t < guaranteedLowestId ==>
                r == if exists j :: o < j && (j in presentAtLowestId || j in objToTrans) then Thrown else Ok(NO_OBJECT)
    {
      var gIt := UpperBound(presentAtLowestId, o);
      var oIt := UpperBound(objToTrans.Keys, o);
      // every object up to `seen` has been passed by both iterators
      ghost var seen := o;
      while gIt.Some? || oIt.Some?
        invariant o <= seen
        invariant IsUpperBound(presentAtLowestId, seen, gIt)
        invariant IsUpperBound(objToTrans.Keys, seen, oIt)
        invariant forall j :: o < j <= seen ==> !Member(t, j)
        invariant t < guaranteedLowestId ==> seen == o
        decreases Above(presentAtLowestId + objToTrans.Keys, seen)
      {
        var candidate :=
          if gIt.None? then oIt.value
          else if oIt.None? then gIt.value
          else if oIt.value < gIt.value then oIt.value
          else gIt.value;
        NextCandidate(presentAtLowestId, objToTrans.Keys, seen, gIt, oIt, candidate);
        var active := IsActive(t, candidate);
        if active.Thrown? {
          return Thrown;
        }
        NotMentioned(t);
        if active.value {
          return Ok(candidate);
        }
        if gIt == Some(candidate) {
          gIt := UpperBound(presentAtLowestId, candidate);
        }
        if oIt == Some(candidate) {
          oIt := UpperBound(objToTrans.Keys, candidate);
        }
        seen := candidate;
      }
      NotMentioned(t);
      r := Ok(NO_OBJECT);
    }

    lemma NotMentioned(t: TransactionId)
      requires Valid()
      ensures forall o :: o !in presentAtLowestId && o !in objToTrans ==> !Member(t, o)
    {
      assert forall o :: o !in presentAtLowestId && o !in objToTrans ==>
               !Active(objToTrans, presentAtLowestId, Moment(t, o));
    }

    method LookupFirst(t: TransactionId) returns (r: Result<ObjectId>)
      requires Valid()
      ensures guaranteedLowestId <= t ==> r.Ok? && IsNext(t, NO_OBJECT, r.value)
      ensures t < guaranteedLowestId ==>
                r == if exists j :: NO_OBJECT < j && (j in presentAtLowestId || j in objToTrans) then Thrown
                     else Ok(NO_OBJECT)
      ensures r.Ok? ==> r.value == NO_OBJECT || NO_OBJECT < r.value
    {
      r := LookupNext(t, NO_OBJECT);
    }

    ghost predicate OnlyMember(t: TransactionId, o: ObjectId)
      reads this
    {
      NO_OBJECT < o && forall j :: NO_OBJECT < j ==> (Member(t, j) <==> j == o)
    }

    method LookupOne(t: TransactionId) returns (r: Result<ObjectId>)
      requires Valid()
      ensures guaranteedLowestId <= t ==> r.Ok?
      ensures guaranteedLowestId <= t && r.value != NO_OBJECT ==> OnlyMember(t, r.value)
      ensures guaranteedLowestId <= t && r.value == NO_OBJECT ==> forall o :: !OnlyMember(t, o)
      ensures t < guaranteedLowestId ==>
                r == if exists j :: NO_OBJECT < j && (j in presentAtLowestId || j in objToTrans) then Thrown
                     else Ok(NO_OBJECT)
    {
      r := LookupFirst(t);
      if r.Ok? && r.value != NO_OBJECT {
        var first := r.value;
        var second := LookupNext(t, first);
        if second.Thrown? {
          r := Thrown;
        } else if second.value != NO_OBJECT {
          if guaranteedLowestId <= t {
            assert Member(t, first) && Member(t, second.value);
            assert forall o :: o != first ==> !OnlyMember(t, o);
            assert !OnlyMember(t, first);
          }
          r := Ok(NO_OBJECT);
        }
      } else if guaranteedLowestId <= t {
        assert forall o :: OnlyMember(t, o) ==> Member(t, o);
      }
    }

    method Add(t: TransactionId, o: ObjectId) returns (r: Result<()>)
      requires Valid()
      modifies this
      ensures Valid()
      ensures r.Thrown? <==> t < old(guaranteedLowestId)
      ensures r.Thrown? ==> unchanged(this)
      ensures guaranteedLowestId == old(guaranteedLowestId)
      ensures old(transToObj.Keys) <= transToObj.Keys <= old(transToObj.Keys) + {t}
      ensures r.Ok? ==>
                forall u, p :: Member(u, p) == (old(Member(u, p)) || Covers(old(Timeline(objToTrans, o)), t, o, u, p))
    {
      var active := IsActive(t, o);
      if active.Thrown? {
        return Thrown;
      }
      if active.value {
        AlreadySo(t, o, true);
        return Ok(());
      }
      Record(t, o, true);
      r := Ok(());
    }

    method Remove(t: TransactionId, o: ObjectId) returns (r: Result<()>)
      requires Valid()
      modifies this
      ensures Valid()
      ensures r.Thrown? <==> t < old(guaranteedLowestId)
      ensures r.Thrown? ==> unchanged(this)
      ensures guaranteedLowestId == old(guaranteedLowestId)
      ensures old(transToObj.Keys) <= transToObj.Keys <= old(transToObj.Keys) + {t}
      ensures r.Ok? ==>
                forall u, p :: Member(u, p) == (old(Member(u, p)) && !Covers(old(Timeline(objToTrans, o)), t, o, u, p))
    {
      var active := IsActive(t, o);
      if active.Thrown? {
        return Thrown;
      }
      if !active.value {
        AlreadySo(t, o, false);
        return Ok(());
      }
      Record(t, o, false);
      r := Ok(());
    }

    /** Adding what is active, or removing what is not, needs no event. */
    lemma AlreadySo(t: TransactionId, o: ObjectId, added: bool)
      requires Valid() && Member(t, o) == added
      ensures forall u, p :: Covers(Timeline(objToTrans, o), t, o, u, p) ==> Member(u, p) == added
    {
      assert Active(objToTrans, presentAtLowestId, Moment(t, o)) == added;
      TimelineSet(Timeline(objToTrans, o), o in presentAtLowestId, t, added);
      assert forall u :: Member(u, o) <==> Active(objToTrans, presentAtLowestId, Moment(u, o));
    }

    /** The double store at the end of `add` and `remove`. */
    method Record(t: TransactionId, o: ObjectId, added: bool)
      requires Valid() && guaranteedLowestId <= t
      modifies this`transToObj, this`objToTrans, this`members
      ensures Valid()
      ensures transToObj.Keys == old(transToObj.Keys) + {t}
      ensures forall u, p ::
                Member(u, p) == if Covers(old(Timeline(objToTrans, o)), t, o, u, p) then added else old(Member(u, p))
    {
      var atT := if t in transToObj then transToObj[t] else map[];
      var ofO := if o in objToTrans then objToTrans[o] else map[];
      ghost var before := members;
      members := iset m: Moment | if Covers(ofO, t, o, m.tid, m.objId) then added else m in before;
      RecordMeaning(before, objToTrans, presentAtLowestId, t, o, added);
      RecordKeepsTransposed(transToObj, objToTrans, t, o, added);
      transToObj := transToObj[t := atT[o := added]];
      objToTrans := objToTrans[o := ofO[t := added]];
    }

    /** Move the guarantee to `t`, folding every event at or below it into the base set. */
    method MoveGuaranteedLowestIdForward(t: TransactionId) returns (r: Result<TransactionId>)
      requires Valid()
      modifies this
      ensures Valid()
      ensures r.Thrown? <==> t < old(guaranteedLowestId)
      ensures r.Thrown? ==> unchanged(this)
      ensures r.Ok? ==> guaranteedLowestId == t && r.value == NextTransactionToMoveForwardOn()
      ensures forall u, o :: t <= u ==> Member(u, o) == old(Member(u, o))
      ensures old(guaranteedLowestId) < t ==>
                && (forall o :: o in presentAtLowestId <==> old(Member(t, o)))
                && transToObj.Keys == set u | u in old(transToObj) && t < u
      ensures transToObj.Keys <= old(transToObj.Keys)
      ensures |presentAtLowestId| + EventCount(transToObj) <= old(|presentAtLowestId| + EventCount(transToObj))
    {
      if t < guaranteedLowestId {
        return Thrown;
      }
      if t == guaranteedLowestId {
        return Ok(NextTransactionToMoveForwardOn());
      }
      guaranteedLowestId := t;
      while transToObj != map[] && NextTransactionToMoveForwardOn() <= guaranteedLowestId
        invariant guaranteedLowestId == t && members == old(members)
        invariant Transposed(transToObj, objToTrans)
        invariant forall m: Moment :: t <= m.tid ==>
                    Active(objToTrans, presentAtLowestId, m) == old(Active(objToTrans, presentAtLowestId, m))
        invariant transToObj.Keys <= old(transToObj.Keys)
        invariant forall u :: u in old(transToObj) && t < u ==> u in transToObj
        invariant |presentAtLowestId| + EventCount(transToObj) <= old(|presentAtLowestId| + EventCount(transToObj))
        decreases transToObj.Keys
      {
        ConsumeFirstTransaction();
      }
      assert forall u :: u in transToObj ==> t < u;
      forall m: Moment | t <= m.tid
        ensures m in members <==> Active(objToTrans, presentAtLowestId, m)
      {
        assert m in members <==> old(Active(objToTrans, presentAtLowestId, m));
      }
      Recompute(t);
      r := Ok(NextTransactionToMoveForwardOn());
    }

    /** Restate the meaning after compaction: unchanged from `t` on, and no longer of interest before. */
    ghost method Recompute(t: TransactionId)
      requires Transposed(transToObj, objToTrans) && forall u :: u in transToObj ==> t < u
      requires forall m: Moment :: t <= m.tid ==> (m in members <==> Active(objToTrans, presentAtLowestId, m))
      modifies this`members
      ensures Means(members, objToTrans, presentAtLowestId)
      ensures forall u, o :: t <= u ==> Member(u, o) == old(Member(u, o))
      ensures forall o :: o in presentAtLowestId <==> old(Member(t, o))
    {
      BaseIsMembership(transToObj, objToTrans, presentAtLowestId, t);
      assert forall o :: o in presentAtLowestId <==> Moment(t, o) in members;
      var b, present := objToTrans, presentAtLowestId;
      ghost var before := members;
      members := iset m: Moment | Active(b, present, m);
      assert forall m: Moment :: t <= m.tid ==> (m in before <==> Active(b, present, m));
      assert forall u, o :: t <= u ==> (Member(u, o) <==> Active(b, present, Moment(u, o)));
    }

    /** One turn of the outer loop: fold the events of the first transaction into the base set. */
    method ConsumeFirstTransaction()
      requires Transposed(transToObj, objToTrans) && transToObj != map[]
      modifies this`presentAtLowestId, this`transToObj, this`objToTrans
      ensures Transposed(transToObj, objToTrans)
      ensures old(transToObj.Keys) != {} && transToObj == old(transToObj - {Least(transToObj.Keys)})
      ensures forall m: Moment :: old(Least(transToObj.Keys)) <= m.tid ==>
                Active(objToTrans, presentAtLowestId, m) == old(Active(objToTrans, presentAtLowestId, m))
      ensures |presentAtLowestId| + EventCount(transToObj) <= old(|presentAtLowestId| + EventCount(transToObj))
    {
      assert transToObj.Keys != {};
      var toDrop := Least(transToObj.Keys);
      var addsAndRemoves := transToObj[toDrop];
      var left := addsAndRemoves.Keys;
      while left != {}
        invariant left <= addsAndRemoves.Keys
        invariant toDrop in transToObj && transToObj == old(transToObj)
        invariant TransposedBut(transToObj, objToTrans, toDrop, left)
        invariant presentAtLowestId == Folded(old(presentAtLowestId), addsAndRemoves, left)
        decreases left
      {
        ghost var some := AnElement(left);
        var o :| o in left;
        if addsAndRemoves[o] {
          presentAtLowestId := presentAtLowestId + {o};
        } else {
          presentAtLowestId := presentAtLowestId - {o};
        }
        FoldStep(old(presentAtLowestId), addsAndRemoves, left, o);
        ForgetKeepsTransposed(transToObj, objToTrans, toDrop, left, o);
        objToTrans := Forget(objToTrans, o, toDrop);
        left := left - {o};
      }
      TransposedButNone(transToObj, objToTrans, toDrop);
      FoldKeepsMembers(old(transToObj), old(objToTrans), old(presentAtLowestId), toDrop, objToTrans, presentAtLowestId);
      FoldedSize(old(presentAtLowestId), addsAndRemoves);
      transToObj := transToObj - {toDrop};
    }

    method TotalEntryCount() returns (res: nat)
      ensures res == |presentAtLowestId| + |MomentsOf(transToObj)|
    {
      res := |presentAtLowestId|;
      var rest := transToObj;
      while rest != map[]
        invariant res + EventCount(rest) == |presentAtLowestId| + EventCount(transToObj)
        decreases rest.Keys
      {
        assert rest.Keys != {};
        var first := Least(rest.Keys);
        res := res + |rest[first]|;
        rest := rest - {first};
      }
      EventCountIsSize(transToObj);
    }
  }

  /** The least of two upper bounds; the iterators not standing on it need not move to pass it. */
  lemma NextCandidate(present: set<ObjectId>, objs: set<ObjectId>, seen: ObjectId, g: Option<ObjectId>,
                      o: Option<ObjectId>, c: ObjectId)
    requires IsUpperBound(present, seen, g) && IsUpperBound(objs, seen, o) && (g.Some? || o.Some?)
    requires c == if g.None? then o.value else if o.None? then g.value else Min(o.value, g.value)
    ensures c in present + objs && seen < c
    ensures forall j :: seen < j < c ==> j !in present && j !in objs
    ensures g != Some(c) ==> IsUpperBound(present, c, g)
    ensures o != Some(c) ==> IsUpperBound(objs, c, o)
    ensures Above(present + objs, c) < Above(present + objs, seen)
  {
    assert c in Above(present + objs, seen);
  }

  ghost function Above(s: set<ObjectId>, o: ObjectId): set<ObjectId> {
    set j | j in s && o < j
  }

  lemma EventsHaveObjects(a: Events, b: Timelines)
    requires Transposed(a, b)
    ensures a == map[] <==> b == map[]
  {
    if a != map[] {
      var t := AnElement(a.Keys);
      assert a[t] != map[];
      var o := AnElement(a[t].Keys);
      assert o in b;
    }
    if b != map[] {
      var o := AnElement(b.Keys);
      assert b[o] != map[];
      var t := AnElement(b[o].Keys);
      assert t in a;
    }
  }

  /** An event for `o` at `t` decides `p`'s membership at `u`: no later event of `o` is at or below `u`. */
  ghost predicate Covers(times: map<TransactionId, bool>, t: TransactionId, o: ObjectId, u: TransactionId, p: ObjectId)
  {
    p == o && t <= u && forall w :: w in times && t < w ==> u < w
  }

  lemma TimelineSet(times: map<TransactionId, bool>, base: bool, t: TransactionId, added: bool)
    ensures forall u, o ::
              ActiveAt(times[t := added], base, u)
              == if Covers(times, t, o, u, o) then added else ActiveAt(times, base, u)
    ensures ActiveAt(times, base, t) == added ==>
              forall u, o :: Covers(times, t, o, u, o) ==> ActiveAt(times, base, u) == added
  {
    var later := times[t := added];
    forall u, o: ObjectId
      ensures ActiveAt(later, base, u) == if Covers(times, t, o, u, o) then added else ActiveAt(times, base, u)
    {
      assert later.Keys == times.Keys + {t};
      if Covers(times, t, o, u, o) {
        assert Floor(later.Keys, u) == Some(t);
      } else if u < t {
        assert Floor(later.Keys, u) == Floor(times.Keys, u);
      } else {
        var w :| w in times && t < w && w <= u;
        assert Floor(later.Keys, u) == Floor(times.Keys, u);
      }
    }
    if ActiveAt(times, base, t) == added {
      forall u, o: ObjectId | Covers(times, t, o, u, o)
        ensures ActiveAt(times, base, u) == added
      {
        assert Floor(times.Keys, u) == Floor(times.Keys, t);
      }
    }
  }

  lemma RecordMeaning(members: iset<Moment>, b: Timelines, present: set<ObjectId>, t: TransactionId, o: ObjectId,
                      added: bool)
    requires Means(members, b, present)
    ensures var times := Timeline(b, o);
            Means((iset m: Moment | if Covers(times, t, o, m.tid, m.objId) then added else m in members),
                  b[o := times[t := added]], present)
  {
    var times := Timeline(b, o);
    var c := b[o := times[t := added]];
    TimelineSet(times, o in present, t, added);
    forall m: Moment
      ensures Active(c, present, m) <==> if Covers(times, t, o, m.tid, m.objId) then added else m in members
    {
      assert Active(b, present, m) <==> m in members;
      assert m.objId != o ==> Timeline(c, m.objId) == Timeline(b, m.objId);
    }
  }

  /** With no event left at or below `t`, the base set is the membership at `t`. */
  lemma BaseIsMembership(a: Events, b: Timelines, present: set<ObjectId>, t: TransactionId)
    requires Transposed(a, b) && forall u :: u in a ==> t < u
    ensures forall o :: o in present <==> Active(b, present, Moment(t, o))
  {
    forall o
      ensures o in present <==> Active(b, present, Moment(t, o))
    {
      TimelineOf(a, b, o);
      assert Floor(Timeline(b, o).Keys, t) == None;
    }
  }

  lemma RecordKeepsTransposed(a: Events, b: Timelines, t: TransactionId, o: ObjectId, added: bool)
    requires Transposed(a, b)
    ensures var atT := if t in a then a[t] else map[];
            Transposed(a[t := atT[o := added]], b[o := Timeline(b, o)[t := added]])
  {
    var atT := (if t in a then a[t] else map[])[o := added];
    var ofO := Timeline(b, o)[t := added];
    assert o in atT && t in ofO;
  }

  /** Transposed, except that at `d` only the objects `left` still have their event in `b`. */
  ghost predicate TransposedBut(a: Events, b: Timelines, d: TransactionId, left: set<ObjectId>) {
    && (forall t, o :: t in a && o in a[t] && (t == d ==> o in left) ==> o in b && t in b[o] && b[o][t] == a[t][o])
    && (forall o, t :: o in b && t in b[o] ==> t in a && o in a[t] && (t == d ==> o in left))
    && (forall t :: t in a ==> a[t] != map[])
    && (forall o :: o in b ==> b[o] != map[])
  }

  /** Erase the event at `t` from `o`'s timeline, and the timeline too once it is empty. */
  function Forget(b: Timelines, o: ObjectId, t: TransactionId): Timelines
    requires o in b
  {
    var times := b[o] - {t};
    if times == map[] then b - {o} else b[o := times]
  }

  lemma ForgetKeepsTransposed(a: Events, b: Timelines, d: TransactionId, left: set<ObjectId>, o: ObjectId)
    requires TransposedBut(a, b, d, left) && d in a && o in a[d] && o in left
    ensures o in b && TransposedBut(a, Forget(b, o, d), d, left - {o})
  {
    var c := Forget(b, o, d);
    var times := b[o] - {d};
    forall t, p | t in a && p in a[t] && (t == d ==> p in left - {o})
      ensures p in c && t in c[p] && c[p][t] == a[t][p]
    {
      if p == o {
        assert t in times;
      }
    }
  }

  lemma TransposedButNone(a: Events, b: Timelines, d: TransactionId)
    requires TransposedBut(a, b, d, {})
    ensures Transposed(a - {d}, b)
  {
  }

  /** The base set after the events of one transaction, except those of `left`, have been folded in. */
  function Folded(present: set<ObjectId>, events: map<ObjectId, bool>, left: set<ObjectId>): set<ObjectId> {
    (set o | o in present && (o !in events || o in left || events[o]))
    + (set o | o in events && o !in left && events[o])
  }

  lemma FoldStep(present: set<ObjectId>, events: map<ObjectId, bool>, left: set<ObjectId>, o: ObjectId)
    requires o in left && left <= events.Keys
    ensures Folded(present, events, left - {o})
            == if events[o] then Folded(present, events, left) + {o} else Folded(present, events, left) - {o}
  {
  }

  lemma FoldedSize(present: set<ObjectId>, events: map<ObjectId, bool>)
    ensures |Folded(present, events, {})| <= |present| + |events|
  {
    SubsetSize(Folded(present, events, {}), present + events.Keys);
  }

  lemma {:induction false} SubsetSize<T>(a: set<T>, b: set<T>)
    requires a <= b
    ensures |a| <= |b|
    decreases |a|
  {
    if a != {} {
      var x := AnElement(a);
      SubsetSize(a - {x}, b - {x});
    }
  }

  /** A transposed timeline is read off the other map. */
  lemma TimelineOf(a: Events, b: Timelines, o: ObjectId)
    requires Transposed(a, b)
    ensures forall t :: t in Timeline(b, o) <==> t in a && o in a[t]
    ensures forall t :: t in Timeline(b, o) ==> Timeline(b, o)[t] == a[t][o]
  {
  }

  lemma FoldKeepsMembers(a: Events, b: Timelines, present: set<ObjectId>, d: TransactionId, b': Timelines,
                         present': set<ObjectId>)
    requires Transposed(a, b) && d in a && forall t :: t in a ==> d <= t
    requires Transposed(a - {d}, b') && present' == Folded(present, a[d], {})
    ensures forall u, o :: d <= u ==>
              ActiveAt(Timeline(b', o), o in present', u) == ActiveAt(Timeline(b, o), o in present, u)
  {
    forall u, o | d <= u
      ensures ActiveAt(Timeline(b', o), o in present', u) == ActiveAt(Timeline(b, o), o in present, u)
    {
      TimelineOf(a, b, o);
      TimelineOf(a - {d}, b', o);
      hide Transposed, Timeline, ActiveAt;
      FirstEventFolds(Timeline(b, o), Timeline(b', o), o in present, d, u);
    }
  }

  /** An object's first event can as well be where it starts from. */
  lemma FirstEventFolds(times: map<TransactionId, bool>, times': map<TransactionId, bool>, base: bool, d: TransactionId,
                        u: TransactionId)
    requires d <= u && forall t :: t in times ==> d <= t
    requires forall t :: t in times' <==> t in times && t != d
    requires forall t :: t in times' ==> times'[t] == times[t]
    ensures ActiveAt(times', if d in times then times[d] else base, u) == ActiveAt(times, base, u)
  {
    match Floor(times'.Keys, u)
    case Some(w) =>
      assert forall j :: j in times && j <= u ==> j == d || j in times'.Keys;
      assert Floor(times.Keys, u) == Some(w);
    case None =>
      assert forall j :: j in times && j <= u ==> j == d || j in times'.Keys;
      assert Floor(times.Keys, u) == if d in times then Some(d) else None;
  }
}
