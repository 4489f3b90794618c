/** The doubly linked version chains of object_database/VersionedObjectsOfMultiType.hpp,
    spread over two hash maps: links per (object, version) and bounds per object. */
module VersionChain {
  import opened Common
  import opened VersionHistory

  datatype PriorAndNext = PriorAndNext(prior: TransactionId, next: TransactionId)
  datatype MinMax = MinMax(min: TransactionId, max: TransactionId)

  type Links = map<ObjectAndVersion, PriorAndNext>
  type Bounds = map<ObjectId, MinMax>
  type Versioned = set<ObjectAndVersion>

  /** `n` is the first version of `o` above `t`, or NO_TRANSACTION if there is none. */
  ghost predicate IsNext(s: Versioned, o: ObjectId, t: TransactionId, n: TransactionId) {
    if n == NO_TRANSACTION then
      forall u :: ObjectAndVersion(o, u) in s ==> u <= t
    else
      t < n && ObjectAndVersion(o, n) in s && forall u :: ObjectAndVersion(o, u) in s && t < u ==> n <= u
  }

  /** `p` is the last version of `o` below `t`, or NO_TRANSACTION if there is none. */
  ghost predicate IsPrior(s: Versioned, o: ObjectId, t: TransactionId, p: TransactionId) {
    if p == NO_TRANSACTION then
      forall u :: ObjectAndVersion(o, u) in s ==> t <= u
    else
      p < t && ObjectAndVersion(o, p) in s && forall u :: ObjectAndVersion(o, u) in s && u < t ==> u <= p
  }

  ghost predicate AreBounds(s: Versioned, o: ObjectId, b: MinMax) {
    && ObjectAndVersion(o, b.min) in s && ObjectAndVersion(o, b.max) in s
    && forall u :: ObjectAndVersion(o, u) in s ==> b.min <= u <= b.max
  }

  /** Both links of `k` lead to its neighbours among the versions `s`. */
  ghost predicate LinkOk(s: Versioned, k: ObjectAndVersion, pn: PriorAndNext) {
    && 0 <= k.version
    && IsPrior(s, k.objectId, k.version, pn.prior)
    && IsNext(s, k.objectId, k.version, pn.next)
  }

  /** The links of every object chain its versions in order, and its bounds are the two ends. */
  ghost predicate Chained(bounds: Bounds, links: Links) {
    && (forall k :: k in links ==> k.objectId in bounds)
    && (forall k {:trigger LinkOk(links.Keys, k, links[k])} :: k in links ==> LinkOk(links.Keys, k, links[k]))
    && (forall o {:trigger AreBounds(links.Keys, o, bounds[o])} :: o in bounds ==> AreBounds(links.Keys, o, bounds[o]))
  }

  /** Following a link and then the opposite one leads back, strictly upwards or downwards in between. */
  lemma LinksAreInverse(bounds: Bounds, links: Links, k: ObjectAndVersion)
    requires Chained(bounds, links) && k in links
    ensures var n := ObjectAndVersion(k.objectId, links[k].next);
            n.version != NO_TRANSACTION ==> n in links && k.version < n.version && links[n].prior == k.version
    ensures var p := ObjectAndVersion(k.objectId, links[k].prior);
            p.version != NO_TRANSACTION ==> p in links && p.version < k.version && links[p].next == k.version
    ensures links[k].next == NO_TRANSACTION <==> k.version == bounds[k.objectId].max
    ensures links[k].prior == NO_TRANSACTION <==> k.version == bounds[k.objectId].min
  {
    var o := k.objectId;
    var n, p := ObjectAndVersion(o, links[k].next), ObjectAndVersion(o, links[k].prior);
    assert LinkOk(links.Keys, k, links[k]) && AreBounds(links.Keys, o, bounds[o]);
    assert n in links ==> LinkOk(links.Keys, n, links[n]);
    assert p in links ==> LinkOk(links.Keys, p, links[p]);
    assert k in links.Keys && k == ObjectAndVersion(o, k.version);
  }

  /** Link version `v` in between `p` and `n`, either of which may be NO_TRANSACTION. */
  function Inserted(links: Links, o: ObjectId, p: TransactionId, v: TransactionId, n: TransactionId): Links
    requires p != NO_TRANSACTION ==> ObjectAndVersion(o, p) in links
    requires n != NO_TRANSACTION ==> ObjectAndVersion(o, n) in links
  {
    var kp, k, kn := ObjectAndVersion(o, p), ObjectAndVersion(o, v), ObjectAndVersion(o, n);
    var l := links[k := PriorAndNext(p, n)];
    var l := if p == NO_TRANSACTION then l else l[kp := l[kp].(next := v)];
    if n == NO_TRANSACTION then l else l[kn := l[kn].(prior := v)]
  }

  function InsertedBounds(bounds: Bounds, o: ObjectId, p: TransactionId, v: TransactionId, n: TransactionId): Bounds
    requires o in bounds || p == n == NO_TRANSACTION
  {
    bounds[o := MinMax(if p == NO_TRANSACTION then v else bounds[o].min,
                       if n == NO_TRANSACTION then v else bounds[o].max)]
  }

  /** `v` is a new version of `o` whose neighbours are to be `p` and `n`. */
  ghost predicate Gap(links: Links, o: ObjectId, p: TransactionId, v: TransactionId, n: TransactionId) {
    0 <= v && ObjectAndVersion(o, v) !in links && IsPrior(links.Keys, o, v, p) && IsNext(links.Keys, o, v, n)
  }

  lemma TopGap(bounds: Bounds, links: Links, o: ObjectId, v: TransactionId)
    requires Chained(bounds, links) && o in bounds && bounds[o].max < v
    ensures 0 <= bounds[o].max && Gap(links, o, bounds[o].max, v, NO_TRANSACTION)
  {
    assert AreBounds(links.Keys, o, bounds[o]);
    assert LinkOk(links.Keys, ObjectAndVersion(o, bounds[o].max), links[ObjectAndVersion(o, bounds[o].max)]);
  }

  lemma EmptyGap(bounds: Bounds, links: Links, o: ObjectId, v: TransactionId)
    requires Chained(bounds, links) && o !in bounds && 0 <= v
    ensures Gap(links, o, NO_TRANSACTION, v, NO_TRANSACTION)
  {
  }

  lemma InsertedAt(links: Links, o: ObjectId, p: TransactionId, v: TransactionId, n: TransactionId, x: ObjectAndVersion)
    requires Gap(links, o, p, v, n)
    requires x in links ==> LinkOk(links.Keys, x, links[x])
    ensures var s := links.Keys + {ObjectAndVersion(o, v)};
            Inserted(links, o, p, v, n).Keys == s && (x in s ==> LinkOk(s, x, Inserted(links, o, p, v, n)[x]))
  {
    var s, l := links.Keys + {ObjectAndVersion(o, v)}, Inserted(links, o, p, v, n);
    assert l.Keys == s;
    assert x == ObjectAndVersion(x.objectId, x.version);
    if x == ObjectAndVersion(o, v) {
      assert l[x] == PriorAndNext(p, n);
    } else if x in links {
      assert l[x] == PriorAndNext(if x.objectId == o && x.version == n then v else links[x].prior,
                                  if x.objectId == o && x.version == p then v else links[x].next);
    }
  }

  lemma InsertedBoundsAt(bounds: Bounds, links: Links, o: ObjectId, p: TransactionId, v: TransactionId,
                         n: TransactionId, q: ObjectId)
    requires Gap(links, o, p, v, n)
    requires q in bounds ==> AreBounds(links.Keys, q, bounds[q])
    requires p != NO_TRANSACTION || n != NO_TRANSACTION ==> o in bounds
    ensures var b := InsertedBounds(bounds, o, p, v, n);
            q in b ==> AreBounds(links.Keys + {ObjectAndVersion(o, v)}, q, b[q])
  {
  }

  lemma InsertKeepsChained(bounds: Bounds, links: Links, o: ObjectId, p: TransactionId, v: TransactionId,
                           n: TransactionId)
    requires Chained(bounds, links) && Gap(links, o, p, v, n)
    ensures p != NO_TRANSACTION || n != NO_TRANSACTION ==> o in bounds
    ensures Chained(InsertedBounds(bounds, o, p, v, n), Inserted(links, o, p, v, n))
    ensures Inserted(links, o, p, v, n).Keys == links.Keys + {ObjectAndVersion(o, v)}
  {
    var l, b := Inserted(links, o, p, v, n), InsertedBounds(bounds, o, p, v, n);
    var s := links.Keys + {ObjectAndVersion(o, v)};
    InsertedAt(links, o, p, v, n, ObjectAndVersion(o, v));
    assert l.Keys == s;
    forall x | x in s
      ensures LinkOk(s, x, l[x])
    {
      assert x in links ==> LinkOk(links.Keys, x, links[x]);
      InsertedAt(links, o, p, v, n, x);
    }
    forall q | q in b
      ensures AreBounds(s, q, b[q])
    {
      assert q in bounds ==> AreBounds(links.Keys, q, bounds[q]);
      InsertedBoundsAt(bounds, links, o, p, v, n, q);
    }
  }

  /** Unlink a version and join its neighbours. */
  function Unlinked(links: Links, k: ObjectAndVersion): Links
    requires k in links && links[k].prior != k.version && links[k].next != k.version
    requires links[k].prior != NO_TRANSACTION ==> ObjectAndVersion(k.objectId, links[k].prior) in links
    requires links[k].next != NO_TRANSACTION ==> ObjectAndVersion(k.objectId, links[k].next) in links
  {
    var kp, kn := ObjectAndVersion(k.objectId, links[k].prior), ObjectAndVersion(k.objectId, links[k].next);
    var l := links - {k};
    var l := if kp.version == NO_TRANSACTION then l else l[kp := l[kp].(next := kn.version)];
    if kn.version == NO_TRANSACTION then l else l[kn := l[kn].(prior := kp.version)]
  }

  function UnlinkedBounds(bounds: Bounds, links: Links, k: ObjectAndVersion): Bounds
    requires k in links && k.objectId in bounds
  {
    var pn, mm := links[k], bounds[k.objectId];
    if pn.prior == NO_TRANSACTION && pn.next == NO_TRANSACTION then
      bounds - {k.objectId}
    else
      bounds[k.objectId := MinMax(if k.version == mm.min then pn.next else mm.min,
                                  if k.version == mm.max then pn.prior else mm.max)]
  }

  lemma UnlinkedAt(links: Links, k: ObjectAndVersion, x: ObjectAndVersion)
    requires k in links && LinkOk(links.Keys, k, links[k])
    requires x in links ==> LinkOk(links.Keys, x, links[x])
    ensures Unlinked(links, k).Keys == links.Keys - {k}
    ensures x in links && x != k ==> LinkOk(links.Keys - {k}, x, Unlinked(links, k)[x])
  {
    var l := Unlinked(links, k);
    assert l.Keys == links.Keys - {k};
    assert x == ObjectAndVersion(x.objectId, x.version) && k == ObjectAndVersion(k.objectId, k.version);
    if x in links && x != k {
      var same := x.objectId == k.objectId;
      assert l[x] == PriorAndNext(if same && x.version == links[k].next then links[k].prior else links[x].prior,
                                  if same && x.version == links[k].prior then links[k].next else links[x].next);
    }
  }

  lemma UnlinkedBoundsAt(bounds: Bounds, links: Links, k: ObjectAndVersion, q: ObjectId)
    requires k in links && LinkOk(links.Keys, k, links[k]) && k.objectId in bounds
    requires q in bounds ==> AreBounds(links.Keys, q, bounds[q])
    ensures var b := UnlinkedBounds(bounds, links, k);
            q in b ==> AreBounds(links.Keys - {k}, q, b[q])
    ensures k.objectId !in UnlinkedBounds(bounds, links, k) ==>
              forall u :: ObjectAndVersion(k.objectId, u) !in links.Keys - {k}
  {
  }

  lemma UnlinkKeepsChained(bounds: Bounds, links: Links, k: ObjectAndVersion)
    requires Chained(bounds, links) && k in links
    ensures k.objectId in bounds && LinkOk(links.Keys, k, links[k])
    ensures links[k].prior != k.version && links[k].next != k.version
    ensures links[k].prior != NO_TRANSACTION ==> ObjectAndVersion(k.objectId, links[k].prior) in links
    ensures links[k].next != NO_TRANSACTION ==> ObjectAndVersion(k.objectId, links[k].next) in links
    ensures Chained(UnlinkedBounds(bounds, links, k), Unlinked(links, k))
    ensures Unlinked(links, k).Keys == links.Keys - {k}
  {
    assert LinkOk(links.Keys, k, links[k]);
    var l, b := Unlinked(links, k), UnlinkedBounds(bounds, links, k);
    var s := links.Keys - {k};
    UnlinkedAt(links, k, k);
    assert l.Keys == s;
    forall x | x in s
      ensures x.objectId in b && LinkOk(s, x, l[x])
    {
      assert LinkOk(links.Keys, x, links[x]);
      UnlinkedAt(links, k, x);
      UnlinkedBoundsAt(bounds, links, k, x.objectId);
      assert x == ObjectAndVersion(x.objectId, x.version);
    }
    forall q | q in b
      ensures AreBounds(s, q, b[q])
    {
      assert q in bounds ==> AreBounds(links.Keys, q, bounds[q]);
      UnlinkedBoundsAt(bounds, links, k, q);
    }
  }
}
