/** What the system does, step by step, in terms of what was committed, promised and sent. Clients connect, subscribe
    and submit transactions, the server serves a large subscription in batches and forgets version numbers, and
    one client applies its messages and opens and closes views. */
module SystemSpecs {
  import opened Common
  import opened Database
  import opened Replica
  import opened ServerStore
  import opened SubscriptionSnapshot
  import opened CommitProtocol
  import opened LargeSubscriptions
  import opened DatabaseObjectTypes
  import opened Commits
  import opened Listings

  datatype SystemStep =
    | Submit(req: Request, now: int)
    | CollectVersions(threshold: int)
    | Connect(newChannel: ChannelId, connection: ObjectId, existence: IndexId, heartbeats: FieldId, off: Bytes,
              now: int)
    | Subscribe(subscriber: ChannelId, fields: set<FieldId>, indices: set<FieldId>, existence: IndexId)
    | Follow(subscriber: ChannelId, objects: set<ObjectId>)
    | Begin(subscriber: ChannelId, fields: set<FieldId>, indices: set<FieldId>, target: Target)
    | SendBatch(batchSize: nat)
    | DeliverNext
    | ViewOpens(id: TransactionId)
    | ViewCloses(id: TransactionId)

  /** A large subscription under way, and the objects there when it began. */
  datatype Serving = Serving(
    channel: ChannelId, fields: set<FieldId>, indices: set<FieldId>, target: Target, initial: set<ObjectId>)

  datatype ServerState = ServerState(
    log: Log,
    latest: TransactionId,
    minimum: TransactionId,
    byField: FieldSubscribers,
    byObject: ObjectSubscribers,
    sent: map<ChannelId, Log>,
    mirrors: set<Mirror>,
    serving: Option<Serving>)

  /** And how many messages the client of the observed channel has applied, and its open views. */
  datatype SystemState = SystemState(server: ServerState, applied: nat, refs: map<TransactionId, int>)

  /** The expected values are the committed ones. */
  ghost predicate PrerequisitesMet(req: Request, db: Database) {
    forall k :: k in req.prerequisites ==>
      req.prerequisites[k] == if k in req.writes then Lookup(db.fields, k) else None
  }

  ghost predicate Refused(log: Log, latest: TransactionId, minimum: TransactionId, req: Request) {
    || req.asOfVersion < minimum || latest < req.asOfVersion
    || Conflicts(log, req) || !PrerequisitesMet(req, Replay(log))
  }

  /** Nothing speaks against the request, but its index changes contradict the indices. */
  ghost predicate Contradicts(a: ServerState, req: Request) {
    && !Refused(a.log, a.latest, a.minimum, req)
    && !Consistent(Replay(a.log).members, req.setAdds, req.setRemoves)
  }

  ghost function AfterCommit(a: ServerState, req: Request): ServerState {
    var t := TransactionOf(req, a.latest + 1);
    a.(log := a.log + [t], latest := a.latest + 1, sent := SentAfter(a.sent, a.byField, a.byObject, t))
  }

  /** The channel was sent data for a type. It follows the type's fields from now on, and can rely on those fields
      and indices it then has right. */
  ghost function AfterTypeSubscription(a: ServerState, channel: ChannelId, fields: set<FieldId>, indices: set<FieldId>,
                                       data: Transaction): ServerState
    requires channel in a.sent
  {
    var toChannel := a.sent[channel] + [data];
    a.(sent := a.sent[channel := toChannel], byField := WithSubscriber(a.byField, channel, fields),
       mirrors := a.mirrors + NewMirrors(channel, a.log, toChannel, fields, indices, a.latest))
  }

  /** The channel was sent data for an index value, and follows the objects from now on. */
  ghost function AfterValueSubscription(a: ServerState, channel: ChannelId, objects: set<ObjectId>, data: Transaction):
    ServerState
    requires channel in a.sent
  {
    a.(sent := a.sent[channel := a.sent[channel] + [data]], byObject := WithSubscriber(a.byObject, channel, objects))
  }

  /** A large subscription is complete. What the observed channel was sent is all still so. */
  ghost predicate Completes(a: ServerState, b: ServerState, data: Transaction, sent: set<ObjectId>, observed: ChannelId)
  {
    && a.serving.Some? && a.serving.value.channel in a.sent && data.tid == a.latest
    && var sv := a.serving.value;
       && IsBatchedData(data, a.log, sent, sv.initial, sv.target, sv.fields, sv.indices)
       && (sv.channel == observed ==> IsDataFor(data, Replay(a.log), sent, sv.fields, sv.indices, a.latest))
       && b == (if sv.target.WholeType? then AfterTypeSubscription(a, sv.channel, sv.fields, sv.indices, data)
                else AfterValueSubscription(a, sv.channel, sv.initial, data)).(serving := None)
  }

  ghost predicate NoEntry(db: Database, o: ObjectId, f: FieldId) {
    forall m :: m in db.members ==> !(m.objId == o && m.index.fieldId == f)
  }

  /** What each step does to the server. A step that cannot be taken changes nothing, but for a request that
      contradicts the indices: nothing is said of what comes after that. */
  ghost predicate ServerTakes(a: ServerState, step: SystemStep, b: ServerState, observed: ChannelId) {
    match step
    case Submit(req, _) =>
      && !Contradicts(a, req)
      && b == if Refused(a.log, a.latest, a.minimum, req) then
                a.(latest := if req.asOfVersion < a.minimum then a.latest else a.latest + 1)
              else AfterCommit(a, req)
    case CollectVersions(_) => a.minimum <= b.minimum && b == a.(minimum := b.minimum)
    case Connect(newChannel, connection, existence, heartbeats, off, _) =>
      if newChannel !in a.sent && NoEntry(Replay(a.log), connection, existence.fieldId) then
        var after := AfterCommit(a, ConnectionRequest(connection, existence, heartbeats, off, a.latest));
        b == after.(sent := after.sent[newChannel := []])
      else b == a
    case Subscribe(subscriber, fields, indices, existence) =>
      if subscriber in a.sent then
        exists data ::
          && IsDataFor(data, Replay(a.log), ListedIn(Replay(a.log), existence), fields, indices, a.latest)
          && b == AfterTypeSubscription(a, subscriber, fields, indices, data)
      else b == a
    case Follow(subscriber, objects) =>
      b == if subscriber in a.sent then a.(byObject := WithSubscriber(a.byObject, subscriber, objects)) else a
    case Begin(subscriber, fields, indices, target) =>
      b == if a.serving.None? && subscriber in a.sent then
             a.(serving := Some(Serving(subscriber, fields, indices, target, ListedIn(Replay(a.log), target.index))))
           else a
    case SendBatch(_) => b == a || exists data, sent :: Completes(a, b, data, sent, observed)
    case _ => b == a
  }

  /** What each step does to the client of `channel`. */
  ghost predicate ClientTakes(a: SystemState, step: SystemStep, b: SystemState, channel: ChannelId)
    requires channel in a.server.sent
  {
    match step
    case DeliverNext => b == a.(applied := if a.applied < |a.server.sent[channel]| then a.applied + 1 else a.applied)
    case ViewOpens(id) => b == a.(refs := Acquired(a.refs, id))
    case ViewCloses(id) => b == a.(refs := Released(a.refs, id))
    case _ => b == a.(server := b.server)
  }

  ghost predicate Takes(a: SystemState, step: SystemStep, b: SystemState, channel: ChannelId) {
    channel in a.server.sent && ServerTakes(a.server, step, b.server, channel) && ClientTakes(a, step, b, channel)
  }

  /** No number is above the latest. */
  ghost predicate Numbered(a: SystemState, channel: ChannelId) {
    && (forall t :: t in a.server.log ==> t.tid <= a.server.latest)
    && channel in a.server.sent && a.applied <= |a.server.sent[channel]|
    && (forall t :: t in a.server.sent[channel] ==> t.tid <= a.server.latest)
  }

  ghost predicate IsRun(trace: seq<SystemState>, steps: seq<SystemStep>, channel: ChannelId) {
    && |trace| == |steps| + 1
    && (forall i :: 0 <= i < |steps| ==> Takes(trace[i], steps[i], trace[i + 1], channel))
    && (forall i :: 0 <= i <= |steps| ==> Numbered(trace[i], channel))
  }

  lemma RunGoesOn(trace: seq<SystemState>, steps: seq<SystemStep>, i: nat, b: SystemState, channel: ChannelId)
    requires i < |steps| && IsRun(trace, steps[..i], channel) && Takes(trace[i], steps[i], b, channel)
    requires Numbered(b, channel)
    ensures IsRun(trace + [b], steps[..i + 1], channel)
  {
    hide Takes, Numbered;
  }

  /** Nothing committed, sent or promised is taken back, and what is committed has new numbers. */
  ghost predicate Grew(a: ServerState, b: ServerState) {
    && a.latest <= b.latest && a.log <= b.log && a.minimum <= b.minimum && a.mirrors <= b.mirrors
    && (forall n :: |a.log| <= n < |b.log| ==> a.latest < b.log[n].tid)
    && (forall c :: c in a.sent ==> c in b.sent && a.sent[c] <= b.sent[c])
  }

  lemma StepGrows(a: ServerState, step: SystemStep, b: ServerState, observed: ChannelId)
    requires ServerTakes(a, step, b, observed)
    ensures Grew(a, b)
  {
    hide IsDataFor, IsBatchedData, NewMirrors, WithSubscriber, Refused, Consistent, Replay, CommitProtocol.Follows;
    hide ConnectionRequest, NoEntry, ListedIn;
  }

  lemma {:induction false} RunGrows(trace: seq<SystemState>, steps: seq<SystemStep>, channel: ChannelId, i: nat, j: nat)
    requires IsRun(trace, steps, channel) && i <= j <= |steps|
    ensures Grew(trace[i].server, trace[j].server)
    decreases j - i
  {
    hide ServerTakes, ClientTakes, Numbered;
    if i < j {
      assert Takes(trace[j - 1], steps[j - 1], trace[j], channel);
      StepGrows(trace[j - 1].server, steps[j - 1], trace[j].server, channel);
      RunGrows(trace, steps, channel, i, j - 1);
    }
  }

  /** How many more views were opened at `v` than closed. */
  function OpenAt(steps: seq<SystemStep>, v: TransactionId): int {
    multiset(steps)[ViewOpens(v)] as int - multiset(steps)[ViewCloses(v)]
  }

  /** The last that happened at `v` is that a view was opened. */
  ghost predicate LastOpened(steps: seq<SystemStep>, v: TransactionId) {
    exists i ::
      0 <= i < |steps| && steps[i] == ViewOpens(v) && forall j :: i < j < |steps| ==> steps[j] != ViewCloses(v)
  }

  /** References count what is open, over any run. */
  lemma {:induction false} RefsCounted(trace: seq<SystemState>, steps: seq<SystemStep>, channel: ChannelId)
    requires IsRun(trace, steps, channel)
    ensures forall v :: CountAt(trace[|steps|].refs, v) == CountAt(trace[0].refs, v) + OpenAt(steps, v)
  {
    hide ServerTakes, Numbered, CountAt;
    if steps != [] {
      var n := |steps| - 1;
      RefsCounted(trace[..n + 1], steps[..n], channel);
      assert steps == steps[..n] + [steps[n]];
      assert Takes(trace[n], steps[n], trace[n + 1], channel);
    }
  }

  /** A version has a reference exactly while as many views are not closed there as were opened; but if more were
      closed before, one that is opened then leaves a reference that counts for nothing. */
  lemma {:induction false} ReferencedExactly(trace: seq<SystemState>, steps: seq<SystemStep>, channel: ChannelId,
                                             v: TransactionId)
    requires IsRun(trace, steps, channel) && trace[0].refs == map[]
    ensures v in trace[|steps|].refs <==> OpenAt(steps, v) != 0 || LastOpened(steps, v)
  {
    RefsCounted(trace, steps, channel);
    if steps != [] {
      var n := |steps| - 1;
      ReferencedExactly(trace[..n + 1], steps[..n], channel, v);
      assert Takes(trace[n], steps[n], trace[n + 1], channel);
      hide *;
      LastStepOpened(steps, v);
      ReferencedAfter(trace[n], steps[n], trace[n + 1], channel, v);
      OpenAtStep(steps, v);
    }
  }

  lemma ReferencedAfter(a: SystemState, step: SystemStep, b: SystemState, channel: ChannelId, v: TransactionId)
    requires Takes(a, step, b, channel)
    ensures v in b.refs
            <==> || step == ViewOpens(v)
                 || if step == ViewCloses(v) then CountAt(b.refs, v) != 0 else v in a.refs
  {
    hide ServerTakes, CountAt;
  }

  lemma OpenAtStep(steps: seq<SystemStep>, v: TransactionId)
    requires steps != []
    ensures var n := |steps| - 1;
            OpenAt(steps, v) == OpenAt(steps[..n], v) + if steps[n] == ViewOpens(v) then 1
                                                        else if steps[n] == ViewCloses(v) then -1 else 0
  {
    assert steps == steps[..|steps| - 1] + [steps[|steps| - 1]];
  }

  lemma LastStepOpened(steps: seq<SystemStep>, v: TransactionId)
    requires steps != []
    ensures var n := |steps| - 1;
            LastOpened(steps, v)
            <==> steps[n] == ViewOpens(v) || (steps[n] != ViewCloses(v) && LastOpened(steps[..n], v))
  {
    var n := |steps| - 1;
    if steps[n] == ViewOpens(v) {
      assert LastOpened(steps, v);
    } else if LastOpened(steps, v) {
      var i :|
        0 <= i < |steps| && steps[i] == ViewOpens(v) && forall j :: i < j < |steps| ==> steps[j] != ViewCloses(v);
      assert steps[..n][i] == ViewOpens(v);
    }
  }

  ghost predicate HeldThroughout(trace: seq<SystemState>, v: TransactionId) {
    forall i :: 0 <= i < |trace| ==> v in trace[i].refs
  }

  lemma HeldLonger(trace: seq<SystemState>, b: SystemState)
    ensures forall v :: HeldThroughout(trace + [b], v) <==> HeldThroughout(trace, v) && v in b.refs
  {
    forall v
      ensures HeldThroughout(trace + [b], v) <==> HeldThroughout(trace, v) && v in b.refs
    {
      if HeldThroughout(trace + [b], v) {
        assert forall i :: 0 <= i < |trace| ==> (trace + [b])[i] == trace[i];
        assert (trace + [b])[|trace|] == b;
      }
    }
  }

  lemma HeldWhileOpen(trace: seq<SystemState>, steps: seq<SystemStep>, taken: nat, channel: ChannelId)
    requires taken <= |steps| && IsRun(trace, steps[..taken], channel)
    ensures forall v ::
              (forall i :: 0 <= i <= taken ==> 0 < CountAt(trace[0].refs, v) + OpenAt(steps[..i], v)) ==>
              HeldThroughout(trace, v)
  {
    forall i, v | 0 <= i <= taken
      ensures CountAt(trace[i].refs, v) == CountAt(trace[0].refs, v) + OpenAt(steps[..i], v)
    {
      RunPrefix(trace, steps[..taken], channel, i);
      assert steps[..taken][..i] == steps[..i];
      RefsCounted(trace[..i + 1], steps[..i], channel);
    }
    assert |trace| == taken + 1;
    hide IsRun, OpenAt;
    forall v, i | 0 <= i < |trace| && forall j :: 0 <= j <= taken ==>
                    0 < CountAt(trace[0].refs, v) + OpenAt(steps[..j], v)
      ensures v in trace[i].refs
    {
      assert 0 < CountAt(trace[0].refs, v) + OpenAt(steps[..i], v);
    }
  }

  lemma RunPrefix(trace: seq<SystemState>, steps: seq<SystemStep>, channel: ChannelId, i: nat)
    requires IsRun(trace, steps, channel) && i <= |steps|
    ensures IsRun(trace[..i + 1], steps[..i], channel)
  {
    hide Takes, Numbered;
  }

  /** The step commits no index change without one to a field of the index. */
  ghost predicate StepCarries(t: ObjectType, step: SystemStep) {
    match step
    case Submit(req, _) => forall tid :: CarriesIndices(t, TransactionOf(req, tid))
    case Connect(_, connection, existence, heartbeats, off, _) =>
      forall asOf, tid ::
        CarriesIndices(t, TransactionOf(ConnectionRequest(connection, existence, heartbeats, off, asOf), tid))
    case _ => true
  }

  /** If no step commits an index change alone, as none does that is made through object types, then a client
      that follows the fields can rely on the indices too, throughout the run. */
  lemma {:induction false} RunIsCarried(t: ObjectType, trace: seq<SystemState>, steps: seq<SystemStep>,
                                        channel: ChannelId)
    requires IsRun(trace, steps, channel) && AlwaysCarried(t, trace[0].server.log)
    requires forall step :: step in steps ==> StepCarries(t, step)
    ensures AlwaysCarried(t, trace[|steps|].server.log)
    ensures forall m: Mirror :: m.fieldId in t.indices && (forall f :: f in t.indices[m.fieldId] ==> f in m.via) ==>
              Carried(trace[|steps|].server.log, m.fieldId, m.since, m.via)
  {
    hide CarriesIndices, Carried, Refused, Replay, SentAfter, TransactionOf, ConnectionRequest, Consistent, IsDataFor;
    hide IsBatchedData, NewMirrors, WithSubscriber, Numbered, NoEntry, Contradicts, ClientTakes;
    if steps != [] {
      var n := |steps| - 1;
      assert Takes(trace[n], steps[n], trace[n + 1], channel);
      assert StepCarries(t, steps[n]);
      RunIsCarried(t, trace[..n + 1], steps[..n], channel);
    }
    forall m: Mirror | m.fieldId in t.indices && forall f :: f in t.indices[m.fieldId] ==> f in m.via
      ensures Carried(trace[|steps|].server.log, m.fieldId, m.since, m.via)
    {
      AlwaysCarriedIsCarried(t, trace[|steps|].server.log, m.fieldId, m.since, m.via);
    }
  }

  /** The channel can rely on the field or index, and its client has applied all that was sent for `v`. */
  ghost predicate Settled(a: SystemState, channel: ChannelId, m: Mirror, v: TransactionId)
    requires Numbered(a, channel)
  {
    && m in a.server.mirrors && m.channel == channel && m.since <= v
    && Carried(a.server.log, m.fieldId, m.since, m.via)
    && forall t :: t in a.server.sent[channel][a.applied..] ==> v < t.tid
  }

  /** Whatever a step does, a channel that follows an object and has it right goes on having it right. */
  lemma StepKeepsFollowed(a: ServerState, step: SystemStep, b: ServerState, channel: ChannelId, o: ObjectId,
                          since: TransactionId)
    requires ServerTakes(a, step, b, channel) && channel in a.sent && forall t :: t in a.log ==> t.tid <= a.latest
    requires IsSubscriber(a.byObject, o, channel) && MirrorsObject(a.sent[channel], a.log, o, since)
    ensures channel in b.sent && IsSubscriber(b.byObject, o, channel)
    ensures MirrorsObject(b.sent[channel], b.log, o, since)
  {
    hide MirrorsObject, Contradicts, Refused, Replay, IsDataFor, IsBatchedData, NewMirrors, ConnectionRequest, NoEntry;
    hide TransactionOf, SentAfter, ListedIn;
    match step {
      case Submit(req, _) =>
        CommitKeepsFollowed(a, TransactionOf(req, a.latest + 1), channel, o, since);
      case Connect(_, connection, existence, heartbeats, off, _) =>
        var req := ConnectionRequest(connection, existence, heartbeats, off, a.latest);
        CommitKeepsFollowed(a, TransactionOf(req, a.latest + 1), channel, o, since);
      case Subscribe(subscriber, fields, indices, existence) =>
        if subscriber == channel {
          var data :| IsDataFor(data, Replay(a.log), ListedIn(Replay(a.log), existence), fields, indices, a.latest)
                      && b == AfterTypeSubscription(a, subscriber, fields, indices, data);
          DataKeepsObject(data, a.log, a.sent[channel], ListedIn(Replay(a.log), existence), fields, indices,
                          a.latest, o, since);
        }
      case SendBatch(_) =>
        if b != a {
          var data, sent :| Completes(a, b, data, sent, channel);
          var sv := a.serving.value;
          if sv.channel == channel {
            DataKeepsObject(data, a.log, a.sent[channel], sent, sv.fields, sv.indices, a.latest, o, since);
          }
        }
      case _ =>
    }
  }

  lemma CommitKeepsFollowed(a: ServerState, t: Transaction, channel: ChannelId, o: ObjectId, since: TransactionId)
    requires channel in a.sent && IsSubscriber(a.byObject, o, channel)
    requires MirrorsObject(a.sent[channel], a.log, o, since)
    ensures SentAfter(a.sent, a.byField, a.byObject, t).Keys == a.sent.Keys
    ensures MirrorsObject(SentAfter(a.sent, a.byField, a.byObject, t)[channel], a.log + [t], o, since)
  {
    hide MirrorsObject, ChangesObject, ChangesField;
    SentExactly(a.sent, a.byField, a.byObject, t);
    ObjectMirrorsStep(a.sent[channel], a.log, o, since, t, Concerns(a.byField, a.byObject, channel, t));
  }

  /** An object the client has right when it comes to follow it is right at the client for the rest of the run. */
  lemma {:induction false} FollowedInRun(trace: seq<SystemState>, steps: seq<SystemStep>, channel: ChannelId, i: nat,
                                         o: ObjectId)
    requires IsRun(trace, steps, channel) && i <= |steps| && IsSubscriber(trace[i].server.byObject, o, channel)
    requires channel in trace[i].server.sent
    requires SameObject(Replay(trace[i].server.sent[channel]), Replay(trace[i].server.log), o)
    ensures channel in trace[|steps|].server.sent && IsSubscriber(trace[|steps|].server.byObject, o, channel)
    ensures MirrorsObject(trace[|steps|].server.sent[channel], trace[|steps|].server.log, o, trace[i].server.latest)
    decreases |steps|
  {
    assert Numbered(trace[i], channel);
    var a := trace[i].server;
    if i == |steps| {
      hide Replay, StateAt, IsRun;
      forall v | a.latest <= v
        ensures SameObject(StateAt(a.sent[channel], v), StateAt(a.log, v), o)
      {
        StateAtEnd(a.sent[channel], v);
        StateAtEnd(a.log, v);
      }
    } else {
      hide Replay, StateAt, ServerTakes, ClientTakes, SameObject, MirrorsObject, IsSubscriber;
      var n := |steps| - 1;
      FollowedInRun(trace[..n + 1], steps[..n], channel, i, o);
      assert Takes(trace[n], steps[n], trace[n + 1], channel) && Numbered(trace[n], channel);
      StepKeepsFollowed(trace[n].server, steps[n], trace[n + 1].server, channel, o, a.latest);
    }
  }

  /** An index value that is served in batches: every object listed under it when that began is right at the client
      for the rest of the run, if the data made up all the difference. */
  lemma ServedObjectInRun(trace: seq<SystemState>, steps: seq<SystemStep>, channel: ChannelId, i: nat, o: ObjectId)
    requires IsRun(trace, steps, channel) && i < |steps| && steps[i].SendBatch? && channel in trace[i].server.sent
    requires var serving := trace[i].server.serving;
             && serving.Some? && serving.value.channel == channel && !serving.value.target.WholeType?
             && o in serving.value.initial
             && SufficesForObject(Replay(trace[i].server.sent[channel]), Replay(trace[i].server.log), o,
                                  serving.value.fields, serving.value.indices)
    requires trace[i + 1].server.serving.None?
    ensures channel in trace[|steps|].server.sent
    ensures MirrorsObject(trace[|steps|].server.sent[channel], trace[|steps|].server.log, o, trace[i].server.latest)
  {
    hide Replay, IsDataFor, SufficesForObject, SameObject, MirrorsObject, Numbered, ClientTakes;
    var a, b := trace[i].server, trace[i + 1].server;
    assert Takes(trace[i], steps[i], trace[i + 1], channel);
    var data, sent :| Completes(a, b, data, sent, channel);
    DataGivesObject(data, Replay(a.log), Replay(a.sent[channel]), sent, a.serving.value.fields, a.serving.value.indices,
                    a.latest, o);
    ReplayAppend(a.sent[channel], data);
    FollowedInRun(trace, steps, channel, i + 1, o);
  }

  /** The mirror that following a field, or the fields of an index, of a type amounts to. */
  function TypeMirror(channel: ChannelId, d: TypeDef, f: FieldId, since: TransactionId): Mirror {
    Mirror(channel, f, since, if f in d.fields then {f} else d.fields)
  }

  lemma ServedHasMirror(a: SystemState, channel: ChannelId, d: TypeDef, f: FieldId, objects: set<ObjectId>,
                        data: Transaction)
    requires Numbered(a, channel) && f in d.fields + d.indices
    requires IsDataFor(data, Replay(a.server.log), objects, d.fields, d.indices, a.server.latest)
    requires d.AllListed(Replay(a.server.log)) && ListedIn(Replay(a.server.log), d.existence) <= objects
    requires d.NoLeftovers(Replay(a.server.sent[channel]), Replay(a.server.log), f)
    ensures TypeMirror(channel, d, f, a.server.latest)
            in AfterTypeSubscription(a.server, channel, d.fields, d.indices, data).mirrors
  {
    hide Replay, IsDataFor, TypeDef.AllListed, TypeDef.NoLeftovers, Suffices, Mirrors, ListedIn;
    d.ListedAndMoreSuffices(Replay(a.server.sent[channel]), Replay(a.server.log), f, objects);
    DataMirrors(data, a.server.log, a.server.sent[channel], objects, d.fields, d.indices, a.server.latest, f);
  }

  /** A subscription in the middle of a run earns its client what it can rely on for the rest of it: if everything
      was listed and it had no leftovers then, at the end it reads the field or index as committed once what
      was sent for a snapshot is applied. */
  lemma ServedInRun(trace: seq<SystemState>, steps: seq<SystemStep>, channel: ChannelId, i: nat,
                    d: TypeDef, f: FieldId)
    requires IsRun(trace, steps, channel) && i < |steps| && f in d.fields + d.indices
    requires steps[i] == Subscribe(channel, d.fields, d.indices, d.existence)
    requires d.AllListed(Replay(trace[i].server.log))
    requires d.NoLeftovers(Replay(trace[i].server.sent[channel]), Replay(trace[i].server.log), f)
    ensures TypeMirror(channel, d, f, trace[i].server.latest) in trace[|steps|].server.mirrors
  {
    hide Replay, IsDataFor, TypeDef.AllListed, TypeDef.NoLeftovers, ListedIn, AfterTypeSubscription, Numbered;
    var a, b := trace[i], trace[i + 1];
    assert Takes(a, steps[i], b, channel) && Numbered(a, channel);
    var data :|
      && IsDataFor(data, Replay(a.server.log), ListedIn(Replay(a.server.log), d.existence), d.fields, d.indices,
                   a.server.latest)
      && b.server == AfterTypeSubscription(a.server, channel, d.fields, d.indices, data);
    ServedHasMirror(a, channel, d, f, ListedIn(Replay(a.server.log), d.existence), data);
    RunGrows(trace, steps, channel, i + 1, |steps|);
  }

  /** So does a subscription served in batches, if what was sent is all still so at its end. */
  lemma ServedInBatches(trace: seq<SystemState>, steps: seq<SystemStep>, channel: ChannelId,
                        i: nat, d: TypeDef, f: FieldId)
    requires IsRun(trace, steps, channel) && i < |steps| && f in d.fields + d.indices && steps[i].SendBatch?
    requires var serving := trace[i].server.serving;
             && serving.Some? && serving.value.channel == channel && serving.value.target == WholeType(d.existence)
             && serving.value.fields == d.fields && serving.value.indices == d.indices
    requires trace[i + 1].server.serving.None?
    requires d.AllListed(Replay(trace[i].server.log))
    requires d.NoLeftovers(Replay(trace[i].server.sent[channel]), Replay(trace[i].server.log), f)
    ensures TypeMirror(channel, d, f, trace[i].server.latest) in trace[|steps|].server.mirrors
  {
    hide Replay, IsDataFor, TypeDef.AllListed, TypeDef.NoLeftovers, AfterTypeSubscription, Numbered;
    var a, b := trace[i], trace[i + 1];
    assert Takes(a, steps[i], b, channel) && Numbered(a, channel);
    var data, sent :| Completes(a.server, b.server, data, sent, channel);
    assert ListedIn(Replay(a.server.log), d.existence) <= sent;
    ServedHasMirror(a, channel, d, f, sent, data);
    RunGrows(trace, steps, channel, i + 1, |steps|);
  }
}
