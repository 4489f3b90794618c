/** Large transactions are sent in pieces (`_createTransaction` of object_database/database_connection.py) and put
    together again by the server (`ConnectedChannel` of object_database/server.py), with the pieces of other
    transactions in between. */
module TransactionChunks {
  import opened Common
  import opened OrderedSets
  import opened Database
  import opened CommitProtocol

  type Guid = int
  type Writes = map<ObjectFieldId, Option<Bytes>>
  type IndexLists = map<IndexId, set<ObjectId>>

  datatype TransactionData = TransactionData(
    guid: Guid, writes: Writes, prerequisites: Writes, setAdds: IndexLists, setRemoves: IndexLists,
    keyVersions: seq<ObjectFieldId>, indexVersions: seq<IndexId>)

  datatype Message =
    | Data(data: TransactionData) | Heartbeat | CompleteTransaction(guid: Guid, asOfVersion: TransactionId)

  /** A transaction as far as the server has got it. */
  datatype Pending = Pending(
    writes: Writes, prerequisites: Writes, setAdds: IndexLists, setRemoves: IndexLists,
    keyVersions: set<ObjectFieldId>, indexVersions: set<IndexId>)

  const NOTHING: Pending := Pending(map[], map[], map[], map[], {}, {})

  function Absorb(p: Pending, d: TransactionData): Pending {
    Pending(p.writes + d.writes, p.prerequisites + d.prerequisites, p.setAdds + WithoutEmpty(d.setAdds),
            p.setRemoves + WithoutEmpty(d.setRemoves), p.keyVersions + Elements(d.keyVersions),
            p.indexVersions + Elements(d.indexVersions))
  }

  function Elements<T(==)>(s: seq<T>): set<T> {
    set x | x in s
  }

  /** The pieces of one transaction, in order. */
  function Pieces(ms: seq<Message>, g: Guid): seq<TransactionData> {
    if ms == [] then []
    else
      var front, last := Pieces(ms[..|ms| - 1], g), ms[|ms| - 1];
      if last.Data? && last.data.guid == g then front + [last.data] else front
  }

  function Gather(ds: seq<TransactionData>): Pending {
    if ds == [] then NOTHING else Absorb(Gather(ds[..|ds| - 1]), ds[|ds| - 1])
  }

  lemma GatherAppend(ds: seq<TransactionData>, d: TransactionData)
    ensures Gather(ds + [d]) == Absorb(Gather(ds), d)
  {
  }

  lemma PiecesAppend(ms: seq<Message>, m: Message, g: Guid)
    ensures Pieces(ms + [m], g) == if m.Data? && m.data.guid == g then Pieces(ms, g) + [m.data] else Pieces(ms, g)
  {
  }

  /** The server's side of one connection. */
  class ConnectedChannel {
    var pendingTransactions: map<Guid, Pending>

    constructor ()
      ensures pendingTransactions == map[]
    {
      pendingTransactions := map[];
    }

    method HandleTransactionData(msg: TransactionData)
      modifies this
      ensures pendingTransactions == Handled(old(pendingTransactions), Data(msg))
    {
      if msg.guid !in pendingTransactions {
        pendingTransactions := pendingTransactions[msg.guid := Pending(map[], map[], map[], map[], {}, {})];
      }
      var p := pendingTransactions[msg.guid];
      p := p.(writes := p.writes + msg.writes);
      p := p.(prerequisites := p.prerequisites + msg.prerequisites);
      p := p.(setAdds := p.setAdds + (map i | i in msg.setAdds && msg.setAdds[i] != {} :: msg.setAdds[i]));
      p := p.(setRemoves := p.setRemoves
                            + (map i | i in msg.setRemoves && msg.setRemoves[i] != {} :: msg.setRemoves[i]));
      p := p.(keyVersions := p.keyVersions + Elements(msg.keyVersions),
              indexVersions := p.indexVersions + Elements(msg.indexVersions));
      pendingTransactions := pendingTransactions[msg.guid := p];
    }

    /** A transaction of which no piece arrived is unknown, and the request fails with an exception. */
    method ExtractTransactionData(guid: Guid) returns (r: Result<Pending>)
      modifies this
      ensures r == if guid in old(pendingTransactions) then Ok(old(pendingTransactions)[guid]) else Thrown
      ensures pendingTransactions == old(pendingTransactions) - {guid}
    {
      if guid !in pendingTransactions {
        assert pendingTransactions - {guid} == pendingTransactions;
        return Thrown;
      }
      r := Ok(pendingTransactions[guid]);
      pendingTransactions := pendingTransactions - {guid};
    }

    /** All messages of a connection, of any number of transactions. */
    method HandleAll(ms: seq<Message>)
      modifies this
      ensures pendingTransactions == HandledAll(old(pendingTransactions), ms)
    {
      var n := 0;
      assert ms[..0] == [];
      while n < |ms|
        invariant 0 <= n <= |ms| && pendingTransactions == HandledAll(old(pendingTransactions), ms[..n])
      {
        assert ms[..n + 1][..n] == ms[..n];
        match ms[n] {
          case Data(data) => HandleTransactionData(data);
          case Heartbeat =>
          case CompleteTransaction(g, _) => var r := ExtractTransactionData(g);
        }
        n := n + 1;
      }
      assert ms[..n] == ms;
    }
  }

  function Handled(pending: map<Guid, Pending>, m: Message): map<Guid, Pending> {
    match m
    case Data(d) => pending[d.guid := Absorb(if d.guid in pending then pending[d.guid] else NOTHING, d)]
    case Heartbeat => pending
    case CompleteTransaction(g, _) => pending - {g}
  }

  function HandledAll(pending: map<Guid, Pending>, ms: seq<Message>): map<Guid, Pending> {
    if ms == [] then pending else Handled(HandledAll(pending, ms[..|ms| - 1]), ms[|ms| - 1])
  }

  /** The pieces of other transactions make no difference: what is pending for one is gathered from its
      own pieces, in whatever way they were mixed with others. */
  lemma {:induction false} OthersMakeNoDifference(ms: seq<Message>, g: Guid)
    requires forall m :: m in ms && m.CompleteTransaction? ==> m.guid != g
    ensures var p := HandledAll(map[], ms);
            (g in p <==> Pieces(ms, g) != []) && (g in p ==> p[g] == Gather(Pieces(ms, g)))
  {
    if ms != [] {
      var front, last := ms[..|ms| - 1], ms[|ms| - 1];
      OthersMakeNoDifference(front, g);
      assert last in ms;
      if last.Data? && last.data.guid == g {
        GatherAppend(Pieces(front, g), last.data);
      }
    }
  }

  /** A message of writes only, and so on. */
  function WritesOnly(g: Guid, writes: Writes): Message {
    Data(TransactionData(g, writes, map[], map[], map[], [], []))
  }

  function ListsOnly(g: Guid, m: IndexLists, adding: bool): Message {
    Data(TransactionData(g, map[], map[], if adding then m else map[], if adding then map[] else m, [], []))
  }

  function Restrict<K, V>(m: map<K, V>, keys: set<K>): map<K, V> {
    map k | k in m && k in keys :: m[k]
  }

  lemma RestrictEnds<K, V>(m: map<K, V>)
    ensures Restrict(m, {}) == map[] && Restrict(m, m.Keys) == m
  {
  }

  lemma RestrictOneMore<K, V>(m: map<K, V>, keys: set<K>, k: K)
    requires k in m
    ensures Restrict(m, keys + {k}) == Restrict(m, keys)[k := m[k]]
  {
  }

  /** Only transaction data of `g` and heartbeats. */
  ghost predicate Uploads(ms: seq<Message>, g: Guid) {
    forall m :: m in ms ==> m.Heartbeat? || (m.Data? && m.data.guid == g)
  }

  ghost function Gathered(ms: seq<Message>, g: Guid): Pending {
    Gather(Pieces(ms, g))
  }

  lemma GatheredAppend(ms: seq<Message>, m: Message, g: Guid)
    ensures Gathered(ms + [m], g)
            == if m.Data? && m.data.guid == g then Absorb(Gathered(ms, g), m.data) else Gathered(ms, g)
  {
  }

  lemma OneMoreKey<K, V>(m: map<K, V>, k: K, v: V)
    requires k !in m
    ensures |m[k := v]| == |m| + 1
  {
  }

  lemma PlusOneMore<K, V>(a: map<K, V>, b: map<K, V>, k: K, v: V)
    ensures a + b[k := v] == (a + b)[k := v]
  {
  }

  lemma PlusAssociates<K, V>(a: map<K, V>, b: map<K, V>, c: map<K, V>)
    ensures a + (b + c) == a + b + c
  {
  }

  /** What was uploaded so far and what is still held back are together the writes dealt with. No message
      has more than `maxKeys + 1` of them. */
  ghost predicate WritesUploaded(ms: seq<Message>, g: Guid, held: Writes, all: Writes, todo: set<ObjectFieldId>,
                                 maxKeys: nat) {
    var p := Gathered(ms, g);
    && Uploads(ms, g) && p == NOTHING.(writes := p.writes) && p.writes + held == Restrict(all, all.Keys - todo)
    && held.Keys !! todo && WithinLimit(ms, maxKeys)
  }

  predicate WithinLimit(ms: seq<Message>, maxKeys: nat) {
    forall m :: m in ms && m.Data? ==> |m.data.writes| <= maxKeys + 1
  }

  lemma FlushGathers(ms: seq<Message>, g: Guid, held: Writes)
    requires Gathered(ms, g) == NOTHING.(writes := Gathered(ms, g).writes)
    ensures Gathered(ms + [WritesOnly(g, held), Heartbeat], g) == NOTHING.(writes := Gathered(ms, g).writes + held)
  {
    GatheredAppend(ms, WritesOnly(g, held), g);
    GatheredAppend(ms + [WritesOnly(g, held)], Heartbeat, g);
    hide Gathered;
    assert ms + [WritesOnly(g, held)] + [Heartbeat] == ms + [WritesOnly(g, held), Heartbeat];
    assert WithoutEmpty(map[]) == map[];
    assert Elements<ObjectFieldId>([]) == {} && Elements<IndexId>([]) == {};
  }

  lemma FlushWrites(ms: seq<Message>, g: Guid, held: Writes, all: Writes, todo: set<ObjectFieldId>, maxKeys: nat)
    requires WritesUploaded(ms, g, held, all, todo, maxKeys) && |held| <= maxKeys + 1
    ensures WritesUploaded(ms + [WritesOnly(g, held), Heartbeat], g, map[], all, todo, maxKeys)
  {
    FlushGathers(ms, g, held);
    FlushUploads(ms, g, held, maxKeys);
    hide Gathered, Restrict, Uploads, WithinLimit;
    PlusNothing(Gathered(ms, g).writes + held);
  }

  lemma FlushUploads(ms: seq<Message>, g: Guid, held: Writes, maxKeys: nat)
    requires Uploads(ms, g) && WithinLimit(ms, maxKeys) && |held| <= maxKeys + 1
    ensures var after := ms + [WritesOnly(g, held), Heartbeat];
            Uploads(after, g) && WithinLimit(after, maxKeys)
  {
  }

  lemma HoldWrite(ms: seq<Message>, g: Guid, held: Writes, all: Writes, todo: set<ObjectFieldId>, maxKeys: nat,
                  k: ObjectFieldId)
    requires WritesUploaded(ms, g, held, all, todo, maxKeys) && k in todo && todo <= all.Keys
    ensures WritesUploaded(ms, g, held[k := all[k]], all, todo - {k}, maxKeys)
    ensures |held[k := all[k]]| == |held| + 1
  {
    OneMoreKey(held, k, all[k]);
    RestrictOneMore(all, all.Keys - todo, k);
    assert all.Keys - (todo - {k}) == all.Keys - todo + {k};
    PlusOneMore(Gathered(ms, g).writes, held, k, all[k]);
    hide Gathered, Restrict, Uploads, WithinLimit;
  }

  lemma WritesBegin(g: Guid, all: Writes, maxKeys: nat)
    ensures WritesUploaded([], g, map[], all, all.Keys, maxKeys)
  {
  }

  /** The loop over the writes: full messages, and what is left for the last one. */
  method SendWrites(g: Guid, keyValue: Writes, maxKeys: nat) returns (ms: seq<Message>, outWrites: Writes)
    ensures WritesUploaded(ms, g, outWrites, keyValue, {}, maxKeys) && |outWrites| <= maxKeys
    ensures |keyValue| <= maxKeys ==> ms == []
  {
    WritesBegin(g, keyValue, maxKeys);
    hide WritesUploaded;
    ms, outWrites := [], map[];
    var todo := keyValue.Keys;
    while todo != {}
      invariant todo <= keyValue.Keys && WritesUploaded(ms, g, outWrites, keyValue, todo, maxKeys)
                && |outWrites| <= maxKeys
      invariant |keyValue| <= maxKeys ==> ms == [] && |outWrites| == |keyValue| - |todo|
      decreases todo
    {
      ghost var some := AnElement(todo);
      var k :| k in todo;
      HoldWrite(ms, g, outWrites, keyValue, todo, maxKeys, k);
      todo := todo - {k};
      outWrites := outWrites[k := keyValue[k]];
      if |outWrites| > maxKeys {
        FlushWrites(ms, g, outWrites, keyValue, todo, maxKeys);
        ms := ms + [WritesOnly(g, outWrites), Heartbeat];
        outWrites := map[];
      }
    }
  }

  /** Index lists gathered from the adds or from the removes, and nothing else. */
  function ListsOf(m: IndexLists, adding: bool): Pending {
    if adding then NOTHING.(setAdds := m) else NOTHING.(setRemoves := m)
  }

  ghost predicate ListsUploaded(ms: seq<Message>, g: Guid, adding: bool, held: IndexLists, all: IndexLists,
                                todo: set<IndexId>) {
    var sent := if adding then Gathered(ms, g).setAdds else Gathered(ms, g).setRemoves;
    && Uploads(ms, g) && Gathered(ms, g) == ListsOf(sent, adding)
    && sent + WithoutEmpty(held) == WithoutEmpty(Restrict(all, all.Keys - todo))
  }

  lemma FlushLists(ms: seq<Message>, g: Guid, adding: bool, held: IndexLists, all: IndexLists, todo: set<IndexId>)
    requires ListsUploaded(ms, g, adding, held, all, todo)
    ensures ListsUploaded(ms + [ListsOnly(g, held, adding), Heartbeat], g, adding, map[], all, todo)
  {
    GatheredAppend(ms, ListsOnly(g, held, adding), g);
    GatheredAppend(ms + [ListsOnly(g, held, adding)], Heartbeat, g);
    hide Gathered, Restrict;
    assert ms + [ListsOnly(g, held, adding)] + [Heartbeat] == ms + [ListsOnly(g, held, adding), Heartbeat];
    assert WithoutEmpty(map[]) == map[];
    assert Elements<ObjectFieldId>([]) == {} && Elements<IndexId>([]) == {};
  }

  lemma HoldList(ms: seq<Message>, g: Guid, adding: bool, held: IndexLists, all: IndexLists, todo: set<IndexId>,
                 i: IndexId)
    requires ListsUploaded(ms, g, adding, held, all, todo) && i in todo && todo <= all.Keys && i !in held
    ensures ListsUploaded(ms, g, adding, held[i := all[i]], all, todo - {i})
  {
    RestrictOneMore(all, all.Keys - todo, i);
    hide Gathered, Restrict;
    assert all.Keys - (todo - {i}) == all.Keys - todo + {i};
    WithoutEmptyOneMore(held, i, all[i]);
    var done := Restrict(all, all.Keys - todo);
    WithoutEmptyOneMore(done, i, all[i]);
    var sent := if adding then Gathered(ms, g).setAdds else Gathered(ms, g).setRemoves;
    PlusOneMore(sent, WithoutEmpty(held), i, all[i]);
  }

  lemma WithoutEmptyOneMore(m: IndexLists, i: IndexId, os: set<ObjectId>)
    requires i !in m
    ensures WithoutEmpty(m[i := os]) == if os == {} then WithoutEmpty(m) else WithoutEmpty(m)[i := os]
  {
  }

  lemma ListsBegin(g: Guid, adding: bool, all: IndexLists)
    ensures ListsUploaded([], g, adding, map[], all, all.Keys)
  {
  }

  /** How many objects the lists have together. */
  ghost function Listed(m: IndexLists): nat {
    |Pairs(m)|
  }

  /** Every message sent before the last one is full: it has one list too many, or too many objects. */
  ghost predicate FullPieces(ms: seq<Message>, maxKeys: nat, maxObjects: nat) {
    forall m :: m in ms && m.Data? ==>
      && |m.data.setAdds| + |m.data.setRemoves| <= maxKeys + 1
      && (|m.data.setAdds| + |m.data.setRemoves| == maxKeys + 1
          || maxObjects < Listed(m.data.setAdds) + Listed(m.data.setRemoves))
  }

  lemma NothingSent(maxKeys: nat, maxObjects: nat)
    ensures FullPieces([], maxKeys, maxObjects)
  {
  }

  lemma OneMoreFullPiece(ms: seq<Message>, g: Guid, held: IndexLists, adding: bool, maxKeys: nat, maxObjects: nat)
    requires FullPieces(ms, maxKeys, maxObjects) && |held| <= maxKeys + 1
    requires |held| == maxKeys + 1 || maxObjects < Listed(held)
    ensures FullPieces(ms + [ListsOnly(g, held, adding), Heartbeat], maxKeys, maxObjects)
  {
    assert Listed(map[]) == 0;
  }

  lemma ListedOneMore(m: IndexLists, i: IndexId, os: set<ObjectId>)
    requires i !in m
    ensures Listed(m[i := os]) == Listed(m) + |os| && |m[i := os]| == |m| + 1
  {
    var more := m[i := os];
    ListedSplit(more, more.Keys, i);
    assert Restrict(more, more.Keys) == more && Restrict(more, more.Keys - {i}) == m;
    OneMoreKey(m, i, os);
  }

  lemma ListedSplit(m: IndexLists, todo: set<IndexId>, i: IndexId)
    requires i in todo && i in m
    ensures Listed(Restrict(m, todo)) == |m[i]| + Listed(Restrict(m, todo - {i}))
  {
    var here := set o | o in m[i] :: Membership(i, o);
    assert Pairs(Restrict(m, todo)) == here + Pairs(Restrict(m, todo - {i}));
    SameSize(i, m[i]);
  }

  lemma {:induction false} SameSize(i: IndexId, os: set<ObjectId>)
    ensures |set o | o in os :: Membership(i, o)| == |os|
    decreases os
  {
    if os == {} {
      assert (set o | o in os :: Membership(i, o)) == {};
    } else {
      var o := Least(os);
      SameSize(i, os - {o});
      assert (set p | p in os :: Membership(i, p)) == (set p | p in os - {o} :: Membership(i, p)) + {Membership(i, o)};
    }
  }

  /** The loop over the index adds, and the one over the index removes: a message is full when it has
      many lists or many objects. */
  method SendLists(g: Guid, adding: bool, lists: IndexLists, maxKeys: nat, maxObjects: nat)
    returns (ms: seq<Message>, outLists: IndexLists)
    ensures ListsUploaded(ms, g, adding, outLists, lists, {}) && |outLists| <= maxKeys
    ensures |lists| <= maxKeys && Listed(lists) <= maxObjects ==> ms == []
    ensures FullPieces(ms, maxKeys, maxObjects)
  {
    ListsBegin(g, adding, lists);
    RestrictEnds(lists);
    assert Listed(map[]) == 0;
    hide ListsUploaded, Listed, Restrict, ListsOnly, FullPieces;
    ms, outLists := [], map[];
    NothingSent(maxKeys, maxObjects);
    var ct := 0;
    var todo := lists.Keys;
    while todo != {}
      invariant todo <= lists.Keys && ListsUploaded(ms, g, adding, outLists, lists, todo)
      invariant outLists.Keys !! todo && |outLists| <= maxKeys && ct == Listed(outLists)
      invariant FullPieces(ms, maxKeys, maxObjects)
      invariant |lists| <= maxKeys && Listed(lists) <= maxObjects ==>
                  ms == [] && |outLists| == |lists| - |todo| && ct + Listed(Restrict(lists, todo)) == Listed(lists)
      decreases todo
    {
      ghost var some := AnElement(todo);
      var i :| i in todo;
      HoldList(ms, g, adding, outLists, lists, todo, i);
      ListedSplit(lists, todo, i);
      ListedOneMore(outLists, i, lists[i]);
      todo := todo - {i};
      outLists := outLists[i := lists[i]];
      ct := ct + |lists[i]|;
      if |outLists| > maxKeys || ct > maxObjects {
        FlushLists(ms, g, adding, outLists, lists, todo);
        OneMoreFullPiece(ms, g, outLists, adding, maxKeys, maxObjects);
        ms := ms + [ListsOnly(g, outLists, adding), Heartbeat];
        outLists := map[];
        ct := 0;
      }
    }
  }

  /** What two parts of a transaction amount to together. */
  function Merge(p: Pending, q: Pending): Pending {
    Pending(p.writes + q.writes, p.prerequisites + q.prerequisites, p.setAdds + q.setAdds, p.setRemoves + q.setRemoves,
            p.keyVersions + q.keyVersions, p.indexVersions + q.indexVersions)
  }

  lemma MergeAbsorb(p: Pending, q: Pending, d: TransactionData)
    ensures Merge(p, Absorb(q, d)) == Absorb(Merge(p, q), d)
  {
    PlusAssociates(p.writes, q.writes, d.writes);
    PlusAssociates(p.prerequisites, q.prerequisites, d.prerequisites);
    PlusAssociates(p.setAdds, q.setAdds, WithoutEmpty(d.setAdds));
    PlusAssociates(p.setRemoves, q.setRemoves, WithoutEmpty(d.setRemoves));
    hide WithoutEmpty, Elements;
    assert p.keyVersions + (q.keyVersions + Elements(d.keyVersions))
           == p.keyVersions + q.keyVersions + Elements(d.keyVersions);
  }

  lemma OneAfterAnother(a: seq<Message>, b: seq<Message>)
    requires b != []
    ensures a + b == a + b[..|b| - 1] + [b[|b| - 1]] && b == b[..|b| - 1] + [b[|b| - 1]]
  {
  }

  lemma {:induction false} GatheredConcat(a: seq<Message>, b: seq<Message>, g: Guid)
    ensures Gathered(a + b, g) == Merge(Gathered(a, g), Gathered(b, g))
  {
    if b == [] {
      assert a + b == a;
    } else {
      var front, last := b[..|b| - 1], b[|b| - 1];
      GatheredConcat(a, front, g);
      GatheredAppend(a + front, last, g);
      GatheredAppend(front, last, g);
      OneAfterAnother(a, b);
      hide Gathered, Merge, Absorb;
      if last.Data? && last.data.guid == g {
        MergeAbsorb(Gathered(a, g), Gathered(front, g), last.data);
      }
    }
  }

  ghost predicate KeysUploaded(ms: seq<Message>, g: Guid, rest: seq<ObjectFieldId>, keys: seq<ObjectFieldId>) {
    var p := Gathered(ms, g);
    Uploads(ms, g) && p == NOTHING.(keyVersions := p.keyVersions) && p.keyVersions + Elements(rest) == Elements(keys)
  }

  ghost predicate IndicesUploaded(ms: seq<Message>, g: Guid, rest: seq<IndexId>, keys: seq<IndexId>) {
    var p := Gathered(ms, g);
    Uploads(ms, g) && p == NOTHING.(indexVersions := p.indexVersions)
    && p.indexVersions + Elements(rest) == Elements(keys)
  }

  lemma ElementsSplit<T>(s: seq<T>, n: nat)
    requires n <= |s|
    ensures Elements(s) == Elements(s[..n]) + Elements(s[n..])
  {
  }

  /** The loop over the checked keys. */
  method SendKeyVersions(g: Guid, keysToCheckVersions: seq<ObjectFieldId>, maxKeys: nat)
    returns (ms: seq<Message>, rest: seq<ObjectFieldId>)
    requires 0 < maxKeys
    ensures KeysUploaded(ms, g, rest, keysToCheckVersions) && |rest| <= maxKeys
    ensures |keysToCheckVersions| <= maxKeys ==> ms == []
  {
    hide KeysUploaded;
    KeysBegin(g, keysToCheckVersions);
    ms, rest := [], keysToCheckVersions;
    while |rest| > maxKeys
      invariant KeysUploaded(ms, g, rest, keysToCheckVersions) && |rest| <= |keysToCheckVersions|
      invariant |keysToCheckVersions| <= maxKeys ==> ms == []
      decreases |rest|
    {
      var piece := Data(TransactionData(g, map[], map[], map[], map[], rest[..maxKeys], []));
      KeysGoOn(ms, g, rest, keysToCheckVersions, maxKeys);
      ms := ms + [piece, Heartbeat];
      rest := rest[maxKeys..];
    }
  }

  lemma KeysBegin(g: Guid, keys: seq<ObjectFieldId>)
    ensures KeysUploaded([], g, keys, keys)
  {
  }

  lemma KeysGoOn(ms: seq<Message>, g: Guid, rest: seq<ObjectFieldId>, keys: seq<ObjectFieldId>, n: nat)
    requires KeysUploaded(ms, g, rest, keys) && n <= |rest|
    ensures var piece := Data(TransactionData(g, map[], map[], map[], map[], rest[..n], []));
            KeysUploaded(ms + [piece, Heartbeat], g, rest[n..], keys)
  {
    var piece := Data(TransactionData(g, map[], map[], map[], map[], rest[..n], []));
    ElementsSplit(rest, n);
    GatheredAppend(ms, piece, g);
    GatheredAppend(ms + [piece], Heartbeat, g);
    assert ms + [piece] + [Heartbeat] == ms + [piece, Heartbeat];
    assert WithoutEmpty(map[]) == map[] && Elements<IndexId>([]) == {};
    hide Gathered, Elements;
  }

  /** The loop over the checked indices. */
  method SendIndexVersions(g: Guid, indicesToCheckVersions: seq<IndexId>, maxKeys: nat)
    returns (ms: seq<Message>, rest: seq<IndexId>)
    requires 0 < maxKeys
    ensures IndicesUploaded(ms, g, rest, indicesToCheckVersions) && |rest| <= maxKeys
    ensures |indicesToCheckVersions| <= maxKeys ==> ms == []
  {
    hide IndicesUploaded;
    IndicesBegin(g, indicesToCheckVersions);
    ms, rest := [], indicesToCheckVersions;
    while |rest| > maxKeys
      invariant IndicesUploaded(ms, g, rest, indicesToCheckVersions) && |rest| <= |indicesToCheckVersions|
      invariant |indicesToCheckVersions| <= maxKeys ==> ms == []
      decreases |rest|
    {
      var piece := Data(TransactionData(g, map[], map[], map[], map[], [], rest[..maxKeys]));
      IndicesGoOn(ms, g, rest, indicesToCheckVersions, maxKeys);
      ms := ms + [piece];
      rest := rest[maxKeys..];
    }
  }

  lemma IndicesBegin(g: Guid, keys: seq<IndexId>)
    ensures IndicesUploaded([], g, keys, keys)
  {
  }

  lemma IndicesGoOn(ms: seq<Message>, g: Guid, rest: seq<IndexId>, keys: seq<IndexId>, n: nat)
    requires IndicesUploaded(ms, g, rest, keys) && n <= |rest|
    ensures var piece := Data(TransactionData(g, map[], map[], map[], map[], [], rest[..n]));
            IndicesUploaded(ms + [piece], g, rest[n..], keys)
  {
    var piece := Data(TransactionData(g, map[], map[], map[], map[], [], rest[..n]));
    ElementsSplit(rest, n);
    GatheredAppend(ms, piece, g);
    assert WithoutEmpty(map[]) == map[] && Elements<ObjectFieldId>([]) == {};
    hide Gathered, Elements;
  }

  /** What the client means to send: everything it passed in, without the empty lists. */
  function Intended(keyValue: Writes, setAdds: IndexLists, setRemoves: IndexLists,
                    keysToCheckVersions: seq<ObjectFieldId>, indicesToCheckVersions: seq<IndexId>): Pending
  {
    Pending(keyValue, map[], WithoutEmpty(setAdds), WithoutEmpty(setRemoves), Elements(keysToCheckVersions),
            Elements(indicesToCheckVersions))
  }

  /** Five parts and the last message make up the whole. */
  lemma Assembled(w: Writes, adds: IndexLists, removes: IndexLists, keys: set<ObjectFieldId>, indices: set<IndexId>,
                  last: TransactionData)
    ensures Absorb(Merge(Merge(Merge(Merge(NOTHING.(writes := w), ListsOf(adds, true)), ListsOf(removes, false)),
                               NOTHING.(keyVersions := keys)), NOTHING.(indexVersions := indices)), last)
            == Pending(w + last.writes, last.prerequisites, adds + WithoutEmpty(last.setAdds),
                       removes + WithoutEmpty(last.setRemoves), keys + Elements(last.keyVersions),
                       indices + Elements(last.indexVersions))
  {
    hide WithoutEmpty, Elements;
    PlusNothing(w);
    PlusNothing(adds);
    PlusNothing(removes);
    PlusNothing(last.prerequisites);
  }

  lemma PlusNothing<K, V>(m: map<K, V>)
    ensures m + map[] == m && map[] + m == m
  {
  }

  /** Split a transaction into messages small enough to be sent, the last of which completes it. Whatever
      the sizes, the pieces add up to what was passed in. */
  method CreateTransaction(g: Guid, keyValue: Writes, setAdds: IndexLists, setRemoves: IndexLists,
                           keysToCheckVersions: seq<ObjectFieldId>, indicesToCheckVersions: seq<IndexId>,
                           asOfVersion: TransactionId, maxKeys: nat := 10000, maxObjects: nat := 100000)
    returns (ms: seq<Message>)
    requires 0 < maxKeys
    ensures ms != [] && ms[|ms| - 1] == CompleteTransaction(g, asOfVersion) && Uploads(ms[..|ms| - 1], g)
    ensures Pieces(ms[..|ms| - 1], g) != []
    ensures && |keyValue| <= maxKeys && |setAdds| <= maxKeys && |setRemoves| <= maxKeys
            && |Pairs(setAdds)| <= maxObjects && |Pairs(setRemoves)| <= maxObjects
            && |keysToCheckVersions| <= maxKeys && |indicesToCheckVersions| <= maxKeys ==>
              |ms| == 2 && ms[0].Data?
    ensures Gathered(ms[..|ms| - 1], g)
            == Intended(keyValue, setAdds, setRemoves, keysToCheckVersions, indicesToCheckVersions)
  {
    var m1, outWrites := SendWrites(g, keyValue, maxKeys);
    var m2, outSetAdds := SendLists(g, true, setAdds, maxKeys, maxObjects);
    var m3, outSetRemoves := SendLists(g, false, setRemoves, maxKeys, maxObjects);
    var m4, keys := SendKeyVersions(g, keysToCheckVersions, maxKeys);
    var m5, indices := SendIndexVersions(g, indicesToCheckVersions, maxKeys);
    var last := TransactionData(g, outWrites, map[], outSetAdds, outSetRemoves, keys, indices);
    PutTogether(g, m1, m2, m3, m4, m5, last, keyValue, setAdds, setRemoves, keysToCheckVersions, indicesToCheckVersions,
                maxKeys);
    ms := m1 + m2 + m3 + m4 + m5 + [Data(last)];
    ms := ms + [CompleteTransaction(g, asOfVersion)];
    assert ms[..|ms| - 1] == m1 + m2 + m3 + m4 + m5 + [Data(last)];
  }

  lemma PutTogether(g: Guid, m1: seq<Message>, m2: seq<Message>, m3: seq<Message>, m4: seq<Message>, m5: seq<Message>,
                    last: TransactionData, keyValue: Writes, setAdds: IndexLists, setRemoves: IndexLists,
                    keysToCheckVersions: seq<ObjectFieldId>, indicesToCheckVersions: seq<IndexId>, maxKeys: nat)
    requires last.guid == g && last.prerequisites == map[] && WritesUploaded(m1, g, last.writes, keyValue, {}, maxKeys)
    requires ListsUploaded(m2, g, true, last.setAdds, setAdds, {})
    requires ListsUploaded(m3, g, false, last.setRemoves, setRemoves, {})
    requires KeysUploaded(m4, g, last.keyVersions, keysToCheckVersions)
    requires IndicesUploaded(m5, g, last.indexVersions, indicesToCheckVersions)
    ensures var ms := m1 + m2 + m3 + m4 + m5 + [Data(last)];
            && Uploads(ms, g) && Pieces(ms, g) != []
            && Gathered(ms, g) == Intended(keyValue, setAdds, setRemoves, keysToCheckVersions, indicesToCheckVersions)
  {
    GatheredConcat(m1, m2, g);
    GatheredConcat(m1 + m2, m3, g);
    GatheredConcat(m1 + m2 + m3, m4, g);
    GatheredConcat(m1 + m2 + m3 + m4, m5, g);
    GatheredAppend(m1 + m2 + m3 + m4 + m5, Data(last), g);
    PiecesAppend(m1 + m2 + m3 + m4 + m5, Data(last), g);
    RestrictEnds(keyValue);
    RestrictEnds(setAdds);
    RestrictEnds(setRemoves);
    hide Gathered, Restrict, Merge, Absorb, WithoutEmpty, Elements;
    assert keyValue.Keys - {} == keyValue.Keys && setAdds.Keys - {} == setAdds.Keys
           && setRemoves.Keys - {} == setRemoves.Keys;
    Assembled(Gathered(m1, g).writes, Gathered(m2, g).setAdds, Gathered(m3, g).setRemoves,
              Gathered(m4, g).keyVersions, Gathered(m5, g).indexVersions, last);
  }

  /** The server ends up with exactly what the client passed in, with messages of other transactions
      before, between and after its own. */
  lemma ReassembledDespiteOthers(created: seq<Message>, received: seq<Message>, g: Guid, intended: Pending)
    requires Gathered(created, g) == intended && Pieces(created, g) != []
    requires Pieces(received, g) == Pieces(created, g)
    requires forall m :: m in received && m.CompleteTransaction? ==> m.guid != g
    ensures g in HandledAll(map[], received) && HandledAll(map[], received)[g] == intended
  {
    OthersMakeNoDifference(received, g);
  }

  /** The request that is checked and committed. */
  function RequestFrom(p: Pending, asOfVersion: TransactionId): Request {
    Request(p.writes, p.prerequisites, p.setAdds, p.setRemoves, p.keyVersions, p.indexVersions, asOfVersion)
  }
}
