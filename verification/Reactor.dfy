/** The wake-up protocol of object_database/reactor.py, as the interleaved steps of three threads: the reactor's loop,
    the connection's thread, which applies a transaction and then calls the reactor's handler
    (object_database/database_connection.py), and a thread calling `stop`. */
module Reactors {
  import opened Common

  type Key = int

  /** A key read by a calculation, and how many transactions the snapshot it was read from contains. */
  datatype Read = Read(key: Key, at: nat)

  /** Transactions are named by their position in the order they are applied. */
  datatype Entry = Batch(n: nat) | Stop

  /** A handler call: applied, past the check of the flag, holding on to a queue object to put into. */
  datatype Handler = Idle | Applied(n: nat) | Passed(n: nat) | Holding(n: nat, queueId: nat)

  datatype Stopper = NotStopping | FlagCleared | HasQueue(queueId: nat) | StopSent

  /** Where the reactor's thread is. */
  datatype Place =
    | LoopTop | Continuing | Drained | Calculating | Finished | Waiting | Blocked | Woken | Disarmed | Exited

  datatype Wakeup = Never | AtOnce

  datatype State = State(
    log: seq<set<Key>>,
    handler: Handler,
    wantRecordTransactions: bool,
    queueId: nat,
    queue: seq<Entry>,
    isStarted: bool,
    stopper: Stopper,
    place: Place,
    seenKeys: set<Read>,
    readKeys: Option<set<Read>>,
    nextWakeup: Wakeup,
    // history: when the current round began recording, whether its calculation succeeded, and which queue each
    // handler call that got past the flag got hold of
    armedAt: nat,
    succeeded: bool,
    loaded: map<nat, nat>)

  datatype Step =
    | ApplyTransaction(keys: set<Key>) | CheckFlag | LoadQueue | PutBatch
    | ClearStarted | LoadQueueToStop | PutStop
    | CheckStarted | Drain | Arm | ReadKey(key: Key, at: nat) | Succeed(rerun: bool) | Fail
    | CheckStopped | Block | TakeEntry | TimeOut | Disarm | DrainAgain

  const INIT: State :=
    State([], Idle, false, 0, [], true, NotStopping, LoopTop, {}, None, Never, 0, false, map[])

  ghost predicate Enabled(s: State, step: Step) {
    match step
    case ApplyTransaction(_) => s.handler.Idle?
    case CheckFlag => s.handler.Applied?
    case LoadQueue => s.handler.Passed?
    case PutBatch => s.handler.Holding?
    case ClearStarted => s.stopper.NotStopping?
    case LoadQueueToStop => s.stopper.FlagCleared?
    case PutStop => s.stopper.HasQueue?
    case CheckStarted => s.place.LoopTop?
    case Drain => s.place.Continuing?
    case Arm => s.place.Drained?
    case ReadKey(_, at) => s.place.Calculating? && s.armedAt <= at <= |s.log|
    case Succeed(_) => s.place.Calculating?
    case Fail => s.place.Calculating?
    case CheckStopped => s.place.Finished?
    case Block => s.place.Waiting?
    case TakeEntry => s.place.Blocked? && s.queue != []
    case TimeOut => s.place.Blocked?
    case Disarm => s.place.Woken?
    case DrainAgain => s.place.Disarmed?
  }

  predicate Names(log: seq<set<Key>>, n: nat, keys: set<Read>) {
    n < |log| && exists r :: r in keys && r.key in log[n]
  }

  ghost function Next(s: State, step: Step): State
    requires Enabled(s, step)
  {
    match step
    case ApplyTransaction(keys) => s.(log := s.log + [keys], handler := Applied(|s.log|))
    case CheckFlag => s.(handler := if s.wantRecordTransactions then Passed(s.handler.n) else Idle)
    case LoadQueue => s.(handler := Holding(s.handler.n, s.queueId), loaded := s.loaded[s.handler.n := s.queueId])
    case PutBatch =>
      // a queue that has been replaced in the meantime is never looked at again
      s.(queue := if s.handler.queueId == s.queueId then s.queue + [Batch(s.handler.n)] else s.queue, handler := Idle)
    case ClearStarted => s.(isStarted := false, stopper := FlagCleared)
    case LoadQueueToStop => s.(stopper := HasQueue(s.queueId))
    case PutStop =>
      s.(queue := if s.stopper.queueId == s.queueId then s.queue + [Stop] else s.queue, stopper := StopSent)
    case CheckStarted => s.(place := if s.isStarted then Continuing else Exited)
    case Drain => s.(place := Drained, queue := [], queueId := s.queueId + 1)
    case Arm => s.(place := Calculating, wantRecordTransactions := true, seenKeys := {}, armedAt := |s.log|)
    case ReadKey(key, at) => s.(seenKeys := s.seenKeys + {Read(key, at)})
    case Succeed(rerun) =>
      // a calculation that wrote something, or lost against another writer, is repeated at once
      s.(place := Finished, readKeys := Some(s.seenKeys), nextWakeup := if rerun then AtOnce else Never,
         succeeded := true)
    case Fail => s.(place := Finished, succeeded := false)
    case CheckStopped =>
      if s.readKeys.None? then s.(place := Woken)
      else if !s.isStarted then
        s.(place := Exited, wantRecordTransactions := false, queue := [], queueId := s.queueId + 1)
      else s.(place := Waiting)
    case Block => s.(place := if s.nextWakeup.AtOnce? then Woken else Blocked)
    case TakeEntry =>
      var rest := s.queue[1..];
      if s.queue[0].Stop? || (s.readKeys.Some? && Names(s.log, s.queue[0].n, s.readKeys.value)) then
        s.(place := Woken, queue := rest)
      else s.(queue := rest)
    case TimeOut => s.(place := Woken)
    case Disarm => s.(place := Disarmed, wantRecordTransactions := false)
    case DrainAgain => s.(place := LoopTop, queue := [], queueId := s.queueId + 1)
  }

  ghost predicate Runs(s: State, steps: seq<Step>)
    decreases |steps|
  {
    steps == [] || (Enabled(s, steps[0]) && Runs(Next(s, steps[0]), steps[1..]))
  }

  ghost function After(s: State, steps: seq<Step>): State
    requires Runs(s, steps)
    decreases |steps|
  {
    if steps == [] then s else After(Next(s, steps[0]), steps[1..])
  }

  ghost predicate Reachable(s: State) {
    exists steps :: Runs(INIT, steps) && After(INIT, steps) == s
  }

  /** The transaction is queued, or its handler call will still queue it. */
  predicate Pending(s: State, n: nat) {
    || Batch(n) in s.queue
    || (s.handler.Applied? && s.handler.n == n && s.wantRecordTransactions)
    || (s.handler.Passed? && s.handler.n == n)
    || (s.handler.Holding? && s.handler.n == n && s.handler.queueId == s.queueId)
  }

  predicate Recording(s: State) {
    s.place.Calculating? || s.place.Finished? || s.place.Waiting? || s.place.Blocked?
  }

  ghost predicate Accounted(s: State, n: nat) {
    Pending(s, n) || (s.place.Blocked? && s.readKeys.Some? && !Names(s.log, n, s.readKeys.value))
  }

  /** While recording, every transaction since recording began is pending, or the blocked reactor has looked
      at it and found it touches nothing that was read. */
  ghost predicate NothingMissed(s: State) {
    && s.wantRecordTransactions && s.armedAt <= |s.log|
    && (forall n: nat :: s.armedAt <= n < |s.log| ==> Accounted(s, n))
    && (s.place.Calculating? ==> forall r :: r in s.seenKeys ==> s.armedAt <= r.at <= |s.log|)
    && (!s.place.Calculating? && s.succeeded ==>
          s.readKeys.Some? && forall r :: r in s.readKeys.value ==> s.armedAt <= r.at <= |s.log|)
  }

  ghost predicate StopNotLost(s: State) {
    && (s.isStarted <==> s.stopper.NotStopping?)
    && (s.stopper.HasQueue? ==> s.stopper.queueId <= s.queueId)
    && ((s.place.Waiting? || s.place.Blocked?) && !s.isStarted ==>
          Stop in s.queue || s.stopper.FlagCleared? || (s.stopper.HasQueue? && s.stopper.queueId == s.queueId))
  }

  /** The handler call of the transaction has got hold of the present queue, or is about to get hold of it. */
  predicate ReachesPresentQueue(s: State, n: nat) {
    || (n in s.loaded && s.loaded[n] == s.queueId)
    || ((s.handler.Applied? || s.handler.Passed?) && s.handler.n == n)
  }

  /** Each handler call gets hold of one queue and puts its transaction there. */
  ghost predicate LoadsTracked(s: State) {
    && (forall n :: n in s.loaded ==> n < |s.log| && s.loaded[n] <= s.queueId)
    && (s.handler.Applied? || s.handler.Passed? ==> s.handler.n < |s.log| && s.handler.n !in s.loaded)
    && (s.handler.Holding? ==> s.handler.n in s.loaded && s.loaded[s.handler.n] == s.handler.queueId)
    && (forall n: nat :: Batch(n) in s.queue ==> n in s.loaded && s.loaded[n] == s.queueId)
  }

  /** From when the queue is replaced until a wake-up, what was put into it is still there, or looked at and of no
      interest. */
  ghost predicate LoadsKept(s: State) {
    Recording(s) || s.place.Drained? ==> forall n :: n in s.loaded && s.loaded[n] == s.queueId ==> LoadAccounted(s, n)
  }

  ghost predicate LoadAccounted(s: State, n: nat) {
    || Batch(n) in s.queue || (s.handler.Holding? && s.handler.n == n)
    || (s.place.Blocked? && s.readKeys.Some? && !Names(s.log, n, s.readKeys.value))
  }

  lemma StaysLoadAccounted(s: State, step: Step, n: nat)
    requires Enabled(s, step) && LoadAccounted(s, n) && n < |s.log| && (s.place.Blocked? ==> s.readKeys.Some?)
    requires s.handler.Holding? && s.handler.n == n ==> s.handler.queueId == s.queueId
    requires Recording(Next(s, step)) || (s.place.Drained? && Next(s, step).place.Drained?)
    requires Next(s, step).queueId == s.queueId
    ensures LoadAccounted(Next(s, step), n)
  {
  }

  lemma StepTracksLoads(s: State, step: Step)
    requires LoadsTracked(s) && Enabled(s, step)
    ensures LoadsTracked(Next(s, step))
  {
    hide Names;
    match step {
      case PutBatch => Queued(s.queue, Batch(s.handler.n));
      case PutStop => Queued(s.queue, Stop);
      case TakeEntry => Taken(s.queue);
      case LoadQueue =>
      case ApplyTransaction(_) =>
      case CheckFlag =>
      case _ => QueueAndLoads(s, step);
    }
  }

  /** All other steps leave the handler alone, and the queue as it is or empty. */
  lemma QueueAndLoads(s: State, step: Step)
    requires Enabled(s, step) && !step.PutBatch? && !step.PutStop? && !step.TakeEntry? && !step.LoadQueue?
    requires !step.ApplyTransaction? && !step.CheckFlag?
    ensures var t := Next(s, step);
            && t.handler == s.handler && t.loaded == s.loaded && t.log == s.log
            && (t.queue == [] || t.queue == s.queue) && s.queueId <= t.queueId
            && (t.queueId == s.queueId || t.queue == [])
  {
  }

  lemma StepKeepsLoads(s: State, step: Step)
    requires LoadsTracked(s) && LoadsKept(s) && Enabled(s, step) && (s.place.Blocked? ==> s.readKeys.Some?)
    ensures LoadsKept(Next(s, step))
  {
    var t := Next(s, step);
    assert step.Drain? || step.CheckStarted? || !(Recording(t) || t.place.Drained?) || t.queueId == s.queueId;
    assert step.Drain? ==> t.queueId == s.queueId + 1 && t.loaded == s.loaded;
    hide LoadAccounted, Names;
    if Recording(t) || t.place.Drained? {
      forall n | n in t.loaded && t.loaded[n] == t.queueId
        ensures LoadAccounted(t, n)
      {
        LoadStaysKept(s, step, n);
      }
    }
  }

  lemma LoadStaysKept(s: State, step: Step, n: nat)
    requires LoadsTracked(s) && LoadsKept(s) && Enabled(s, step) && (s.place.Blocked? ==> s.readKeys.Some?)
    requires var t := Next(s, step);
             (Recording(t) || t.place.Drained?) && n in t.loaded && t.loaded[n] == t.queueId
    ensures LoadAccounted(Next(s, step), n)
  {
    if step.LoadQueue? && n == s.handler.n {
      hide Names;
    } else {
      assert LoadAccounted(s, n);
      hide LoadsTracked, LoadsKept;
      StaysLoadAccounted(s, step, n);
    }
  }

  ghost predicate Invariant(s: State) {
    && (Recording(s) ==> NothingMissed(s))
    && (s.place.Waiting? || s.place.Blocked? ==> s.readKeys.Some?)
    && StopNotLost(s) && LoadsTracked(s) && LoadsKept(s) && RecordsInRounds(s)
  }

  /** Transactions are recorded from the start of a calculation until the wake-up after it. */
  ghost predicate RecordsInRounds(s: State) {
    s.wantRecordTransactions <==> Recording(s) || s.place.Woken?
  }

  lemma StepKeepsFlag(s: State, step: Step)
    requires RecordsInRounds(s) && Enabled(s, step)
    ensures RecordsInRounds(Next(s, step))
  {
    hide Names;
  }

  lemma Queued(q: seq<Entry>, e: Entry)
    ensures forall x :: x in q + [e] <==> x in q || x == e
  {
  }

  lemma Taken(q: seq<Entry>)
    requires q != []
    ensures forall x :: x in q <==> x == q[0] || x in q[1..]
  {
  }

  lemma StaysAccounted(s: State, step: Step, n: nat)
    requires Enabled(s, step) && n < |s.log| && Accounted(s, n) && s.wantRecordTransactions
    requires Recording(s) && Recording(Next(s, step)) && (s.place.Blocked? ==> s.readKeys.Some?)
    ensures Accounted(Next(s, step), n)
  {
  }

  lemma StepKeepsStop(s: State, step: Step)
    requires StopNotLost(s) && Enabled(s, step)
    ensures StopNotLost(Next(s, step))
  {
    hide Names;
    if step.PutBatch? {
      Queued(s.queue, Batch(s.handler.n));
    } else if step.PutStop? {
      Queued(s.queue, Stop);
    } else if step.TakeEntry? {
      Taken(s.queue);
    }
  }

  lemma StepMissesNothing(s: State, step: Step)
    requires Enabled(s, step) && (Recording(s) ==> NothingMissed(s)) && (s.place.Blocked? ==> s.readKeys.Some?)
    ensures Recording(Next(s, step)) ==> NothingMissed(Next(s, step))
  {
    var t := Next(s, step);
    hide Accounted, Names;
    if Recording(s) && Recording(t) {
      forall n: nat | s.armedAt <= n < |t.log|
        ensures Accounted(t, n)
      {
        if n < |s.log| {
          StaysAccounted(s, step, n);
        } else {
          NewIsAccounted(s, step, n);
        }
      }
    }
  }

  lemma NewIsAccounted(s: State, step: Step, n: nat)
    requires Enabled(s, step) && |s.log| <= n < |Next(s, step).log| && s.wantRecordTransactions
    ensures Accounted(Next(s, step), n)
  {
  }

  lemma StepKeepsInvariant(s: State, step: Step)
    requires Invariant(s) && Enabled(s, step)
    ensures Invariant(Next(s, step))
  {
    StepTracksLoads(s, step);
    StepKeepsLoads(s, step);
    StepKeepsStop(s, step);
    StepMissesNothing(s, step);
    StepKeepsFlag(s, step);
    hide RecordsInRounds, LoadsTracked, LoadsKept, StopNotLost, NothingMissed, Names;
  }

  lemma {:induction false} RunKeepsInvariant(s: State, steps: seq<Step>)
    requires Invariant(s) && Runs(s, steps)
    ensures Invariant(After(s, steps))
    decreases |steps|
  {
    if steps != [] {
      StepKeepsInvariant(s, steps[0]);
      RunKeepsInvariant(Next(s, steps[0]), steps[1..]);
    }
  }

  lemma ReachableIsInvariant(s: State)
    requires Reachable(s)
    ensures Invariant(s)
  {
    var steps :| Runs(INIT, steps) && After(INIT, steps) == s;
    RunKeepsInvariant(INIT, steps);
  }

  /** The key was read in the calculation that began with the last arming. */
  ghost predicate ReadSinceArm(steps: seq<Step>, r: Read) {
    exists i :: 0 <= i < |steps| && steps[i] == ReadKey(r.key, r.at) && forall j :: i < j < |steps| ==> !steps[j].Arm?
  }

  ghost predicate FailedSinceArm(steps: seq<Step>) {
    exists i :: 0 <= i < |steps| && steps[i].Fail? && forall j :: i < j < |steps| ==> !steps[j].Arm?
  }

  /** The key was read in the last calculation that succeeded. */
  ghost predicate ReadInSuccess(steps: seq<Step>, r: Read) {
    exists i: nat, j: nat :: ReadAndSucceeded(steps, r, i, j)
  }

  lemma ReadOneMore(steps: seq<Step>, step: Step, r: Read)
    ensures ReadSinceArm(steps + [step], r)
            <==> step == ReadKey(r.key, r.at) || (!step.Arm? && ReadSinceArm(steps, r))
  {
    var more := steps + [step];
    if step == ReadKey(r.key, r.at) {
      assert more[|steps|] == step;
    }
    if !step.Arm? && ReadSinceArm(steps, r) {
      var i :| 0 <= i < |steps| && steps[i] == ReadKey(r.key, r.at) && forall j :: i < j < |steps| ==> !steps[j].Arm?;
      assert more[i] == steps[i];
    }
    if ReadSinceArm(more, r) && step != ReadKey(r.key, r.at) {
      var i :| 0 <= i < |more| && more[i] == ReadKey(r.key, r.at) && forall j :: i < j < |more| ==> !more[j].Arm?;
      assert i < |steps| && !more[|steps|].Arm?;
      assert steps[i] == more[i] && forall j :: i < j < |steps| ==> steps[j] == more[j];
    }
  }

  lemma FailedOneMore(steps: seq<Step>, step: Step)
    ensures FailedSinceArm(steps + [step]) <==> step.Fail? || (!step.Arm? && FailedSinceArm(steps))
  {
    var more := steps + [step];
    if step.Fail? {
      assert more[|steps|] == step;
    }
    if !step.Arm? && FailedSinceArm(steps) {
      var i :| 0 <= i < |steps| && steps[i].Fail? && forall j :: i < j < |steps| ==> !steps[j].Arm?;
      assert more[i] == steps[i];
    }
    if FailedSinceArm(more) && !step.Fail? {
      var i :| 0 <= i < |more| && more[i].Fail? && forall j :: i < j < |more| ==> !more[j].Arm?;
      assert i < |steps| && !more[|steps|].Arm?;
      assert steps[i] == more[i] && forall j :: i < j < |steps| ==> steps[j] == more[j];
    }
  }

  /** The key was read at `i`, in the calculation that succeeded at `j`, the last one. */
  ghost predicate ReadAndSucceeded(steps: seq<Step>, r: Read, i: nat, j: nat) {
    && i < j < |steps| && steps[i] == ReadKey(r.key, r.at) && steps[j].Succeed?
    && (forall l :: j < l < |steps| ==> !steps[l].Succeed?) && (forall l :: i < l < j ==> !steps[l].Arm?)
  }

  lemma SuccessOneMore(steps: seq<Step>, step: Step, r: Read)
    ensures ReadInSuccess(steps + [step], r)
            <==> if step.Succeed? then ReadSinceArm(steps, r) else ReadInSuccess(steps, r)
  {
    var more := steps + [step];
    if step.Succeed? && ReadSinceArm(steps, r) {
      var i :| 0 <= i < |steps| && steps[i] == ReadKey(r.key, r.at) && forall j :: i < j < |steps| ==> !steps[j].Arm?;
      assert ReadAndSucceeded(more, r, i, |steps|);
    }
    if !step.Succeed? && ReadInSuccess(steps, r) {
      var i: nat, j: nat :| ReadAndSucceeded(steps, r, i, j);
      assert ReadAndSucceeded(more, r, i, j);
    }
    if ReadInSuccess(more, r) {
      var i: nat, j: nat :| ReadAndSucceeded(more, r, i, j);
      StillSucceeded(steps, step, r, i, j);
    }
  }

  lemma StillSucceeded(steps: seq<Step>, step: Step, r: Read, i: nat, j: nat)
    requires ReadAndSucceeded(steps + [step], r, i, j)
    ensures if step.Succeed? then ReadSinceArm(steps, r) else ReadAndSucceeded(steps, r, i, j)
  {
    var more := steps + [step];
    assert more[|steps|] == step;
    assert forall l :: 0 <= l < |steps| ==> more[l] == steps[l];
    assert j < |steps| <==> !step.Succeed?;
  }

  /** What the state remembers of the reads is what the steps have read. */
  ghost predicate Remembers(s: State, steps: seq<Step>) {
    && (forall r :: r in s.seenKeys <==> ReadSinceArm(steps, r))
    && (s.readKeys.None? ==> forall r :: !ReadInSuccess(steps, r))
    && (s.readKeys.Some? ==> forall r :: r in s.readKeys.value <==> ReadInSuccess(steps, r))
    && (s.place.Calculating? ==> !FailedSinceArm(steps))
    && (Recording(s) && !s.place.Calculating? && !s.succeeded ==> FailedSinceArm(steps))
    && (Recording(s) && !s.place.Calculating? && s.succeeded ==> s.readKeys == Some(s.seenKeys))
  }

  lemma StepIsRemembered(s: State, steps: seq<Step>, step: Step)
    requires Remembers(s, steps) && Enabled(s, step)
    ensures Remembers(Next(s, step), steps + [step])
  {
    forall r
      ensures ReadSinceArm(steps + [step], r)
              <==> step == ReadKey(r.key, r.at) || (!step.Arm? && ReadSinceArm(steps, r))
      ensures ReadInSuccess(steps + [step], r)
              <==> if step.Succeed? then ReadSinceArm(steps, r) else ReadInSuccess(steps, r)
    {
      ReadOneMore(steps, step, r);
      SuccessOneMore(steps, step, r);
    }
    FailedOneMore(steps, step);
    hide ReadSinceArm, ReadInSuccess, FailedSinceArm, Names;
  }

  lemma {:induction false} RunsInTwo(s: State, steps: seq<Step>, i: nat)
    requires Runs(s, steps) && i <= |steps|
    ensures Runs(s, steps[..i]) && Runs(After(s, steps[..i]), steps[i..])
    ensures After(After(s, steps[..i]), steps[i..]) == After(s, steps)
    decreases i
  {
    if i == 0 {
      assert steps[..0] == [] && steps[0..] == steps;
    } else {
      hide Enabled, Next;
      RunsInTwo(Next(s, steps[0]), steps[1..], i - 1);
      FirstOfPart(steps, i);
    }
  }

  lemma FirstOfPart(steps: seq<Step>, i: nat)
    requires 0 < i <= |steps|
    ensures steps[..i] != [] && steps[..i][0] == steps[0] && steps[..i][1..] == steps[1..][..i - 1]
    ensures steps[1..][i - 1..] == steps[i..]
  {
  }

  lemma {:induction false} RunIsRemembered(steps: seq<Step>)
    requires Runs(INIT, steps)
    ensures Remembers(After(INIT, steps), steps)
  {
    if steps != [] {
      var n := |steps| - 1;
      RunsInTwo(INIT, steps, n);
      RunIsRemembered(steps[..n]);
      assert steps[n..] == [steps[n]] && [steps[n]][1..] == [] && steps[..n] + [steps[n]] == steps;
      hide Remembers, Enabled, Next;
      StepIsRemembered(After(INIT, steps[..n]), steps[..n], steps[n]);
    }
  }

  /** The keys the reactor waits on are exactly those read in the last calculation that succeeded. */
  lemma ReadKeysExactly(steps: seq<Step>)
    requires Runs(INIT, steps)
    ensures var s := After(INIT, steps);
            forall r :: s.readKeys.Some? && r in s.readKeys.value <==> ReadInSuccess(steps, r)
  {
    RunIsRemembered(steps);
  }

  /** The transaction changed something the blocked reactor is waiting on, after it was read. */
  ghost predicate ChangedSinceRead(s: State, r: Read, n: nat) {
    s.readKeys.Some? && r in s.readKeys.value && r.at <= n < |s.log| && r.key in s.log[n]
  }

  /** No wake-up is lost: in every interleaving, when the reactor is blocked and the present calculation has not failed,
      whatever changed a key after it was read in that calculation is still to be delivered. */
  lemma NoWakeupLost(steps: seq<Step>, i: nat, key: Key, at: nat, n: nat)
    requires Runs(INIT, steps) && After(INIT, steps).place.Blocked?
    requires i < |steps| && steps[i] == ReadKey(key, at)
    requires forall j :: i < j < |steps| ==> !steps[j].Arm? && !steps[j].Fail?
    requires at <= n < |After(INIT, steps).log| && key in After(INIT, steps).log[n]
    ensures Pending(After(INIT, steps), n)
  {
    var s := After(INIT, steps);
    var r := Read(key, at);
    RunIsRemembered(steps);
    NotFailed(steps, i);
    assert ReadSinceArm(steps, r);
    assert r in s.readKeys.value;
    ReachableIsInvariant(s);
    assert Accounted(s, n) && Names(s.log, n, s.readKeys.value);
  }

  /** A calculation that has gone on reading has not failed before. */
  lemma NotFailed(steps: seq<Step>, i: nat)
    requires Runs(INIT, steps) && i < |steps| && steps[i].ReadKey?
    requires forall j :: i < j < |steps| ==> !steps[j].Arm? && !steps[j].Fail?
    ensures !FailedSinceArm(steps)
  {
    RunsInTwo(INIT, steps, i);
    RunIsRemembered(steps[..i]);
    assert steps[i..][0] == steps[i];
    if FailedSinceArm(steps) {
      var j :| 0 <= j < |steps| && steps[j].Fail? && forall l :: j < l < |steps| ==> !steps[l].Arm?;
      assert steps[..i][j].Fail? && forall l :: j < l < i ==> steps[..i][l] == steps[l];
      assert FailedSinceArm(steps[..i]);
      assert false;
    }
  }

  /** After a calculation that raised an exception the reactor waits on the keys of an earlier one. A change since
      they were read is still to be delivered exactly if its handler call reaches the present queue. That is so
      of all changes since the failed attempt began; of the older ones only if the call was so slow that the
      queue had been replaced when it got hold of it. */
  lemma WakeupsAfterFailure(steps: seq<Step>)
    requires Runs(INIT, steps) && After(INIT, steps).place.Blocked?
    ensures var s := After(INIT, steps);
            forall r, n: nat :: ReadInSuccess(steps, r) && r.at <= n < |s.log| && r.key in s.log[n] ==>
              && (Pending(s, n) <==> ReachesPresentQueue(s, n))
              && (s.armedAt <= n ==> Pending(s, n))
  {
    var s := After(INIT, steps);
    assert Reachable(s);
    ReachableIsInvariant(s);
    ReadKeysExactly(steps);
    hide ReadInSuccess, Runs, After;
    forall r, n: nat | ReadInSuccess(steps, r) && r.at <= n < |s.log| && r.key in s.log[n]
      ensures Pending(s, n) <==> ReachesPresentQueue(s, n)
      ensures s.armedAt <= n ==> Pending(s, n)
    {
      assert Names(s.log, n, s.readKeys.value);
      assert s.armedAt <= n ==> Accounted(s, n);
      assert n in s.loaded && s.loaded[n] == s.queueId ==> LoadAccounted(s, n);
    }
  }

  /** Nothing else wakes it: an entry does exactly if it is a request to stop, or a transaction that changed a key read
      in the last calculation that succeeded. */
  lemma WakesExactly(steps: seq<Step>)
    requires Runs(INIT, steps) && After(INIT, steps).place.Blocked? && After(INIT, steps).queue != []
    ensures var s := After(INIT, steps);
            && (s.queue[0].Batch? ==> s.queue[0].n < |s.log|)
            && (Next(s, TakeEntry).place.Woken?
                <==> s.queue[0].Stop? || exists r :: ReadInSuccess(steps, r) && r.key in s.log[s.queue[0].n])
  {
    var s := After(INIT, steps);
    assert Reachable(s);
    ReachableIsInvariant(s);
    ReadKeysExactly(steps);
    hide ReadInSuccess, Runs, After;
  }

  /** The last calculation that succeeded is to be repeated. */
  ghost predicate LastSuccessReruns(steps: seq<Step>) {
    exists j :: 0 <= j < |steps| && steps[j] == Succeed(true) && forall l :: j < l < |steps| ==> !steps[l].Succeed?
  }

  lemma RerunOneMore(steps: seq<Step>, step: Step)
    ensures LastSuccessReruns(steps + [step]) <==> step == Succeed(true) || (!step.Succeed? && LastSuccessReruns(steps))
  {
    var more := steps + [step];
    assert forall l :: 0 <= l < |steps| ==> more[l] == steps[l];
    if step == Succeed(true) {
      assert more[|steps|] == step;
    }
    if !step.Succeed? && LastSuccessReruns(steps) {
      var j :| 0 <= j < |steps| && steps[j] == Succeed(true) && forall l :: j < l < |steps| ==> !steps[l].Succeed?;
      assert more[j] == steps[j];
    }
    if LastSuccessReruns(more) && step != Succeed(true) {
      var j :| 0 <= j < |more| && more[j] == Succeed(true) && forall l :: j < l < |more| ==> !more[l].Succeed?;
      assert j < |steps| && !more[|steps|].Succeed?;
      assert steps[j] == Succeed(true);
    }
  }

  /** A calculation that is to be repeated is: the reactor does not block on what it read. */
  lemma {:induction false} RerunsAtOnce(steps: seq<Step>)
    requires Runs(INIT, steps)
    ensures After(INIT, steps).place.Blocked? ==> !LastSuccessReruns(steps)
    ensures After(INIT, steps).nextWakeup.AtOnce? <==> LastSuccessReruns(steps)
  {
    if steps != [] {
      var n := |steps| - 1;
      RunsInTwo(INIT, steps, n);
      RerunsAtOnce(steps[..n]);
      RerunOneMore(steps[..n], steps[n]);
      assert steps[n..] == [steps[n]] && [steps[n]][1..] == [] && steps[..n] + [steps[n]] == steps;
      hide LastSuccessReruns, Next, Enabled;
      StepReruns(After(INIT, steps[..n]), steps[n]);
    }
  }

  lemma StepReruns(s: State, step: Step)
    requires Enabled(s, step) && (s.place.Blocked? ==> !s.nextWakeup.AtOnce?)
    ensures var t := Next(s, step);
            && (t.place.Blocked? ==> !t.nextWakeup.AtOnce?)
            && (t.nextWakeup.AtOnce? <==> step == Succeed(true) || (!step.Succeed? && s.nextWakeup.AtOnce?))
  {
    hide Names;
  }

  /** A transaction is passed on for the queue exactly if the reactor is calculating or waiting; between two rounds
      it is dropped. */
  lemma RecordedInRounds(s: State)
    requires Reachable(s) && s.handler.Applied?
    ensures Next(s, CheckFlag).handler
            == if s.place.Calculating? || s.place.Finished? || s.place.Waiting? || s.place.Blocked?
                  || s.place.Woken?
               then Passed(s.handler.n) else Idle
  {
    ReachableIsInvariant(s);
  }

  /** A request to stop is not lost either: a reactor that is told to stop never stays blocked. */
  lemma StopIsDelivered(s: State)
    requires Reachable(s) && s.place.Blocked? && s.stopper.StopSent?
    ensures Stop in s.queue
  {
    ReachableIsInvariant(s);
  }

  lemma Go(s: State, step: Step) returns (t: State)
    requires Reachable(s) && Enabled(s, step)
    ensures t == Next(s, step) && Reachable(t)
  {
    t := Next(s, step);
    var steps :| Runs(INIT, steps) && After(INIT, steps) == s;
    RunOneMore(INIT, steps, step);
  }

  lemma {:induction false} RunOneMore(s: State, steps: seq<Step>, step: Step)
    requires Runs(s, steps) && Enabled(After(s, steps), step)
    ensures Runs(s, steps + [step]) && After(s, steps + [step]) == Next(After(s, steps), step)
    decreases |steps|
  {
    if steps == [] {
      assert [step][1..] == [];
    } else {
      assert (steps + [step])[1..] == steps[1..] + [step];
      RunOneMore(Next(s, steps[0]), steps[1..], step);
    }
  }

  lemma FirstRound() returns (s: State)
    ensures Reachable(s)
    ensures s == State([], Idle, true, 1, [], true, NotStopping, Calculating, {}, None, Never, 0, false, map[])
  {
    assert Runs(INIT, []) && After(INIT, []) == INIT;
    hide Reachable, Names;
    s := Go(INIT, CheckStarted);
    s := Go(s, Drain);
    s := Go(s, Arm);
  }

  /** Key 5 is read, and then changed while the reactor is blocked. */
  lemma BlockedOnRead() returns (s: State)
    ensures Reachable(s)
    ensures s == State([], Idle, true, 1, [], true, NotStopping, Blocked,
                       {Read(5, 0)}, Some({Read(5, 0)}), Never, 0, true, map[])
  {
    hide Reachable, Names;
    s := FirstRound();
    s := Go(s, ReadKey(5, 0));
    assert s.seenKeys == {Read(5, 0)};
    s := Go(s, Succeed(false));
    s := Go(s, CheckStopped);
    s := Go(s, Block);
  }

  lemma WokenByChange() returns (s: State)
    ensures Reachable(s)
    ensures s == State([{5}], Idle, true, 1, [], true, NotStopping, Woken,
                       {Read(5, 0)}, Some({Read(5, 0)}), Never, 0, true, map[0 := 1])
  {
    s := BlockedOnRead();
    hide Reachable;
    s := Go(s, ApplyTransaction({5}));
    s := Go(s, CheckFlag);
    s := Go(s, LoadQueue);
    s := Go(s, PutBatch);
    assert Read(5, 0) in s.readKeys.value && Names(s.log, 0, s.readKeys.value);
    s := Go(s, TakeEntry);
    assert s.log == [{5}] && s.queue == [];
  }

  /** The wake-up that a failed calculation swallows: key 5 is read and then changed, the change wakes the
      reactor, the new calculation fails, and the reactor waits for 5 to change again. */
  lemma FailureSwallowsWakeup() returns (s: State)
    ensures Reachable(s) && s.place.Blocked? && !s.succeeded
    ensures ChangedSinceRead(s, Read(5, 0), 0) && !Pending(s, 0)
  {
    s := RetriedAfterChange();
    hide Reachable, Names, Pending;
    s := Go(s, Fail);
    s := Go(s, CheckStopped);
    s := Go(s, Block);
    NothingPending(s);
  }

  lemma NothingPending(s: State)
    requires s.queue == [] && s.handler.Idle?
    ensures forall n: nat :: !Pending(s, n)
  {
  }

  lemma RetriedAfterChange() returns (s: State)
    ensures Reachable(s)
    ensures s == State([{5}], Idle, true, 3, [], true, NotStopping, Calculating,
                       {}, Some({Read(5, 0)}), Never, 1, true, map[0 := 1])
  {
    s := WokenByChange();
    hide Reachable, Names;
    s := Go(s, Disarm);
    s := Go(s, DrainAgain);
    s := Go(s, CheckStarted);
    s := Go(s, Drain);
    s := Go(s, Arm);
  }

  /** A stop queued after the reactor has looked at the flag, and thrown away with the old queue, still stops it:
      the flag was cleared first, and is looked at again. */
  lemma DrainedStopStops() returns (drained: State, s: State)
    ensures Reachable(drained) && drained.place.Drained? && drained.stopper.StopSent? && drained.queue == []
    ensures Reachable(s) && s.place.Exited?
  {
    drained := StopIsDrained();
    hide Reachable, Names;
    s := Go(drained, Arm);
    s := Go(s, Succeed(false));
    s := Go(s, CheckStopped);
  }

  lemma StopIsDrained() returns (s: State)
    ensures Reachable(s)
    ensures s == State([], Idle, false, 1, [], false, StopSent, Drained, {}, None, Never, 0, false, map[])
  {
    assert Runs(INIT, []) && After(INIT, []) == INIT;
    hide Reachable, Names;
    s := Go(INIT, CheckStarted);
    s := Go(s, ClearStarted);
    s := Go(s, LoadQueueToStop);
    s := Go(s, PutStop);
    s := Go(s, Drain);
  }
}
