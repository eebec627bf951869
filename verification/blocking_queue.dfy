/**
 The blocking queue as interleaved steps of any number of pushing and stopping threads and one consumer. The test of
 `stopped` outside the lock, the locked change, the release and the notification are separate steps.
 */
module BlockingQueue {
  import opened Bytes

  /** What a client does inside the lock. */
  datatype Action<T> = PushOf(value: T) | StopOf

  datatype Client<T> =
    | Idle
    | Wanting(action: Action<T>)    // has seen `!stopped`, is about to lock
    | Inside(action: Action<T>)     // holds the lock
    | Changed                       // has made its change, still holds the lock
    | Notifying                     // the lock is released (or was never taken), `notify_one` is next

  datatype Consumer<T> =
    | Out
    | Acquiring                     // about to lock, for the first time or after waking up
    | Checking                      // holds the lock, about to evaluate the predicate
    | Sleeping                      // in `wait`, the lock released
    | Ready                         // the predicate held, the lock is held
    | Back(result: Option<T>)       // `WaitAndPop` has returned; after `Return` it may be called again

  datatype Holder = Free | ByClient(id: nat) | ByConsumer

  /** `pushed` and `popped` record what went in and came out. */
  datatype Queue<T> = Queue(items: seq<T>, stopped: bool, holder: Holder, clients: map<nat, Client<T>>,
                            consumer: Consumer<T>, pushed: seq<T>, popped: seq<T>)

  function NewQueue<T>(): Queue<T> { Queue([], false, Free, map[], Out, [], []) }

  function Pc<T>(q: Queue<T>, t: nat): Client<T> { if t in q.clients then q.clients[t] else Idle }

  datatype QueueStep<T> =
    | Begin(t: nat, action: Action<T>)
    | Acquire(t: nat)
    | Change(t: nat)
    | Release(t: nat)
    | Notify(t: nat)
    | StartWait
    | WakeSpuriously
    | ConsumerAcquire
    | Check
    | Pop
    | Return

  /** The predicate of `condition.wait`. */
  predicate Awaited<T>(q: Queue<T>) { q.stopped || |q.items| > 0 }

  predicate QueueEnabled<T>(q: Queue<T>, step: QueueStep<T>) {
    match step
    case Begin(t, _) => Pc(q, t).Idle?
    case Acquire(t) => Pc(q, t).Wanting? && q.holder == Free
    case Change(t) => Pc(q, t).Inside?
    case Release(t) => Pc(q, t).Changed?
    case Notify(t) => Pc(q, t).Notifying?
    case StartWait => q.consumer.Out?
    case WakeSpuriously => q.consumer.Sleeping?
    case ConsumerAcquire => q.consumer.Acquiring? && q.holder == Free
    case Check => q.consumer.Checking?
    case Pop => q.consumer.Ready? && (q.stopped || |q.items| > 0)
    case Return => q.consumer.Back?
  }

  function SetPc<T>(q: Queue<T>, t: nat, c: Client<T>): Queue<T> { q.(clients := q.clients[t := c]) }

  function QueueApply<T>(q: Queue<T>, step: QueueStep<T>): Queue<T>
    requires QueueEnabled(q, step)
  {
    match step
    case Begin(t, a) => SetPc(q, t, if q.stopped then Notifying else Wanting(a))
    case Acquire(t) => SetPc(q, t, Inside(Pc(q, t).action)).(holder := ByClient(t))
    case Change(t) =>
      (match Pc(q, t).action
       case PushOf(v) => SetPc(q, t, Changed).(items := q.items + [v], pushed := q.pushed + [v])
       case StopOf => SetPc(q, t, Changed).(stopped := true))
    case Release(t) => SetPc(q, t, Notifying).(holder := Free)
    case Notify(t) => SetPc(q, t, Idle).(consumer := if q.consumer.Sleeping? then Acquiring else q.consumer)
    case StartWait => q.(consumer := Acquiring)
    case WakeSpuriously => q.(consumer := Acquiring)
    case ConsumerAcquire => q.(consumer := Checking, holder := ByConsumer)
    case Check => if Awaited(q) then q.(consumer := Ready) else q.(consumer := Sleeping, holder := Free)
    case Pop =>
      if q.stopped then q.(consumer := Back(None), holder := Free)
      else q.(consumer := Back(Some(q.items[0])), holder := Free, items := q.items[1..], popped := q.popped + [q.items[0]])
    case Return => q.(consumer := Out)
  }

  /** A thread has made its change, or found the queue stopped, and will still notify. */
  predicate WillNotify<T>(q: Queue<T>, t: nat) { Pc(q, t).Changed? || Pc(q, t).Notifying? }

  ghost predicate QueueInv<T>(q: Queue<T>) {
    && (forall t :: Pc(q, t).Inside? || Pc(q, t).Changed? <==> q.holder == ByClient(t))
    && (q.consumer.Checking? || q.consumer.Ready? <==> q.holder == ByConsumer)
    && (q.consumer.Ready? ==> Awaited(q))
    && q.pushed == q.popped + q.items
    && (q.consumer.Sleeping? && Awaited(q) ==> exists t :: WillNotify(q, t))
  }

  lemma QueueStepInv<T>(q: Queue<T>, step: QueueStep<T>)
    requires QueueInv(q) && QueueEnabled(q, step)
    ensures QueueInv(QueueApply(q, step))
  {
    var q' := QueueApply(q, step);
    if q.consumer.Sleeping? && Awaited(q) {
      var t :| WillNotify(q, t);
      assert q'.consumer.Sleeping? ==> WillNotify(q', t);
    }
    if step.Change? { assert WillNotify(q', step.t); }
  }

  function QueueExec<T>(q: Queue<T>, steps: seq<QueueStep<T>>): Option<Queue<T>>
    decreases |steps|
  {
    if steps == [] then Some(q)
    else if QueueEnabled(q, steps[0]) then QueueExec(QueueApply(q, steps[0]), steps[1..])
    else None
  }

  lemma {:induction false} QueueExecInv<T>(q: Queue<T>, steps: seq<QueueStep<T>>)
    requires QueueInv(q) && QueueExec(q, steps).Some?
    ensures QueueInv(QueueExec(q, steps).value)
    ensures q.stopped ==> QueueExec(q, steps).value.stopped
    decreases |steps|
  {
    if steps != [] {
      QueueStepInv(q, steps[0]);
      QueueExecInv(QueueApply(q, steps[0]), steps[1..]);
    }
  }

  /** In every reachable state, a consumer asleep on a stopped or non-empty queue has a notification coming. */
  lemma NoLostWakeup<T>(steps: seq<QueueStep<T>>)
    requires QueueExec(NewQueue<T>(), steps).Some?
    requires var q := QueueExec(NewQueue<T>(), steps).value; q.consumer.Sleeping? && Awaited(q)
    ensures exists t :: WillNotify(QueueExec(NewQueue<T>(), steps).value, t)
  {
    QueueExecInv(NewQueue<T>(), steps);
  }

  /** That thread wakes the consumer with its next one or two steps, neither of which can be blocked. */
  lemma NotificationArrives<T>(q: Queue<T>, t: nat)
    requires QueueInv(q) && q.consumer.Sleeping? && WillNotify(q, t)
    ensures var steps := if Pc(q, t).Changed? then [Release(t), Notify(t)] else [Notify(t)];
            QueueExec(q, steps).Some? && QueueExec(q, steps).value.consumer.Acquiring?
  {
    var two: seq<QueueStep<T>>, one: seq<QueueStep<T>> := [Release(t), Notify(t)], [Notify(t)];
    assert two[1..] == one && one[1..] == [];
    if Pc(q, t).Changed? {
      assert QueueExec(QueueApply(q, Release(t)), one).Some?;
    }
  }

  /** The values that the `Push` calls of a run put in: one for each change made inside the lock, in the order of the lock. */
  function PushedBy<T>(q: Queue<T>, steps: seq<QueueStep<T>>): seq<T>
    decreases |steps|
  {
    if steps == [] || !QueueEnabled(q, steps[0]) then [] else
      var rest := PushedBy(QueueApply(q, steps[0]), steps[1..]);
      if steps[0].Change? && Pc(q, steps[0].t).action.PushOf? then [Pc(q, steps[0].t).action.value] + rest else rest
  }

  /** The values that the `WaitAndPop` calls of a run have returned to their caller. */
  function ReturnedBy<T>(q: Queue<T>, steps: seq<QueueStep<T>>): seq<T>
    decreases |steps|
  {
    if steps == [] || !QueueEnabled(q, steps[0]) then [] else
      var rest := ReturnedBy(QueueApply(q, steps[0]), steps[1..]);
      if steps[0].Return? && q.consumer.result.Some? then [q.consumer.result.value] + rest else rest
  }

  /** A value popped and not yet returned. */
  function InHand<T>(q: Queue<T>): seq<T> {
    if q.consumer.Back? && q.consumer.result.Some? then [q.consumer.result.value] else []
  }

  lemma {:induction false} PushedIsWhatWasPushed<T>(q: Queue<T>, steps: seq<QueueStep<T>>)
    requires QueueExec(q, steps).Some?
    ensures QueueExec(q, steps).value.pushed == q.pushed + PushedBy(q, steps)
    decreases |steps|
  {
    if steps != [] {
      var q1 := QueueApply(q, steps[0]);
      PushedIsWhatWasPushed(q1, steps[1..]);
      assert q1.pushed == q.pushed
             || (steps[0].Change? && Pc(q, steps[0].t).action.PushOf? && q1.pushed == q.pushed + [Pc(q, steps[0].t).action.value]);
    }
  }

  lemma {:induction false} PoppedIsWhatWasReturned<T>(q: Queue<T>, steps: seq<QueueStep<T>>, before: seq<T>)
    requires QueueExec(q, steps).Some? && q.popped == before + InHand(q)
    ensures var q' := QueueExec(q, steps).value; q'.popped == before + ReturnedBy(q, steps) + InHand(q')
    decreases |steps|
  {
    if steps != [] {
      var q1 := QueueApply(q, steps[0]);
      var now := if steps[0].Return? && q.consumer.result.Some? then before + [q.consumer.result.value] else before;
      assert q1.popped == now + InHand(q1);
      PoppedIsWhatWasReturned(q1, steps[1..], now);
    }
  }

  /**
   Over every run, what the `Push` calls put in is what `WaitAndPop` has returned, in order, followed by a value on its
   way out and the values queued; `stopped` never goes back; and `front` is never taken of an empty queue.
   */
  lemma OrderedDelivery<T>(steps: seq<QueueStep<T>>, more: seq<QueueStep<T>>)
    requires QueueExec(NewQueue<T>(), steps).Some?
    requires QueueExec(QueueExec(NewQueue<T>(), steps).value, more).Some?
    ensures var q := QueueExec(NewQueue<T>(), steps).value;
            && PushedBy(NewQueue<T>(), steps) == ReturnedBy(NewQueue<T>(), steps) + InHand(q) + q.items
            && q.pushed == PushedBy(NewQueue<T>(), steps)
            && (q.stopped ==> QueueExec(q, more).value.stopped)
            && (q.consumer.Ready? ==> QueueEnabled(q, Pop))
  {
    QueueExecInv(NewQueue<T>(), steps);
    QueueExecInv(QueueExec(NewQueue<T>(), steps).value, more);
    PushedIsWhatWasPushed(NewQueue<T>(), steps);
    PoppedIsWhatWasReturned(NewQueue<T>(), steps, []);
    hide QueueExec, PushedBy, ReturnedBy, QueueInv;
    assert [] + PushedBy(NewQueue<T>(), steps) == PushedBy(NewQueue<T>(), steps);
    assert [] + ReturnedBy(NewQueue<T>(), steps) == ReturnedBy(NewQueue<T>(), steps);
  }

  /** No thread is past the test of `stopped` with a value to push. */
  ghost predicate NoPushUnderWay<T>(q: Queue<T>) {
    forall t: nat :: Pc(q, t).Wanting? || Pc(q, t).Inside? ==> Pc(q, t).action.StopOf?
  }

  /** A stopped queue takes no more values than those already under way: later `Push` calls only notify. */
  lemma {:induction false} StoppedQueueTakesNothing<T>(q: Queue<T>, steps: seq<QueueStep<T>>)
    requires q.stopped && NoPushUnderWay(q) && QueueExec(q, steps).Some?
    ensures PushedBy(q, steps) == []
    decreases |steps|
  {
    if steps != [] {
      var q1 := QueueApply(q, steps[0]);
      forall t: nat | Pc(q1, t).Wanting? || Pc(q1, t).Inside? ensures Pc(q1, t).action.StopOf? {
        assert Pc(q, t).Wanting? || Pc(q, t).Inside?;
      }
      StoppedQueueTakesNothing(q1, steps[1..]);
    }
  }

  /** Once the predicate check has seen `stopped`, whatever others do meanwhile, `WaitAndPop` delivers nothing. */
  lemma StoppedCheckDeliversNothing<T>(q: Queue<T>, between: seq<QueueStep<T>>)
    requires QueueInv(q) && q.consumer.Checking? && q.stopped
    requires var checked := QueueApply(q, Check);
             QueueExec(checked, between).Some? && QueueExec(checked, between).value.consumer.Ready?
    ensures var ready := QueueExec(QueueApply(q, Check), between).value;
            QueueEnabled(ready, Pop) && QueueApply(ready, Pop).consumer == Back(None) && QueueApply(ready, Pop).popped == ready.popped
  {
    QueueStepInv(q, Check);
    QueueExecInv(QueueApply(q, Check), between);
  }

  lemma {:induction false} QueueExecConcat<T>(q: Queue<T>, first: seq<QueueStep<T>>, second: seq<QueueStep<T>>)
    requires QueueExec(q, first).Some?
    ensures QueueExec(q, first + second) == QueueExec(QueueExec(q, first).value, second)
    decreases |first|
  {
    if first == [] {
      assert first + second == second;
    } else {
      assert (first + second)[1..] == first[1..] + second;
      QueueExecConcat(QueueApply(q, first[0]), first[1..], second);
    }
  }

  lemma QueueExecFirst<T>(q: Queue<T>, step: QueueStep<T>, rest: seq<QueueStep<T>>)
    requires QueueEnabled(q, step)
    ensures QueueExec(q, [step] + rest) == QueueExec(QueueApply(q, step), rest)
  {
    assert ([step] + rest)[1..] == rest;
  }

  /** A whole `Push` by thread 0. */
  function PushSteps<T>(v: T): seq<QueueStep<T>> {
    [Begin(0, PushOf(v))] + ([Acquire(0)] + ([Change(0)] + ([Release(0)] + ([Notify(0)] + []))))
  }

  /** A whole `WaitAndPop` that need not wait. */
  function PopSteps<T>(): seq<QueueStep<T>> {
    [StartWait] + ([ConsumerAcquire] + ([Check] + ([Pop] + ([Return] + []))))
  }

  /** One value through the queue. */
  function Delivery<T>(v: T): seq<QueueStep<T>> { PushSteps(v) + PopSteps() }

  /** Between deliveries: nothing queued, nobody in the queue. */
  predicate AtRest<T>(q: Queue<T>) {
    q.items == [] && !q.stopped && q.holder == Free && q.consumer.Out? && Pc(q, 0).Idle?
  }

  lemma PushCompletes<T>(q: Queue<T>, v: T)
    requires AtRest(q)
    ensures QueueExec(q, PushSteps(v)) == Some(q.(clients := q.clients[0 := Idle], items := [v], pushed := q.pushed + [v]))
  {
    hide QueueExec;
    var c := [Change(0)] + ([Release(0)] + ([Notify(0)] + []));
    var q1, q2 := SetPc(q, 0, Wanting(PushOf(v))), SetPc(q, 0, Inside(PushOf(v))).(holder := ByClient(0));
    assert q1.clients[0 := Inside(PushOf(v))] == q2.clients;
    QueueExecFirst(q, Begin(0, PushOf(v)), [Acquire(0)] + c);
    QueueExecFirst(q1, Acquire(0), c);
    PushEnds(q2, v);
    assert q2.clients[0 := Idle] == q.clients[0 := Idle];
  }

  lemma PushEnds<T>(q: Queue<T>, v: T)
    requires Pc(q, 0) == Inside(PushOf(v)) && q.items == [] && q.consumer.Out?
    ensures QueueExec(q, [Change(0)] + ([Release(0)] + ([Notify(0)] + [])))
            == Some(q.(clients := q.clients[0 := Idle], holder := Free, items := [v], pushed := q.pushed + [v]))
  {
    hide QueueExec;
    var e: seq<QueueStep<T>> := [Notify(0)] + [];
    var q3 := SetPc(q, 0, Changed).(items := [v], pushed := q.pushed + [v]);
    var q4, q5 := SetPc(q3, 0, Notifying).(holder := Free), SetPc(q3, 0, Idle).(holder := Free);
    assert q4.clients[0 := Idle] == q5.clients == q.clients[0 := Idle];
    assert q.items + [v] == [v];
    QueueExecFirst(q, Change(0), [Release(0)] + e);
    QueueExecFirst(q3, Release(0), e);
    QueueExecFirst(q4, Notify(0), []);
    QueueExecNothing(q5);
  }

  lemma QueueExecNothing<T>(q: Queue<T>)
    ensures QueueExec(q, []) == Some(q)
  {
  }

  lemma PopCompletes<T>(q: Queue<T>, v: T)
    requires q.items == [v] && !q.stopped && q.holder == Free && q.consumer.Out?
    ensures QueueExec(q, PopSteps()) == Some(q.(items := [], popped := q.popped + [v]))
  {
    hide QueueExec;
    var e: seq<QueueStep<T>> := [Return] + [];
    var d := [Pop] + e;
    var c := [Check] + d;
    var b := [ConsumerAcquire] + c;
    var q1, q2, q3 := q.(consumer := Acquiring), q.(consumer := Checking, holder := ByConsumer), q.(consumer := Ready, holder := ByConsumer);
    var q4 := q.(consumer := Back(Some(v)), items := [], popped := q.popped + [v]);
    QueueExecFirst(q, StartWait, b);
    QueueExecFirst(q1, ConsumerAcquire, c);
    QueueExecFirst(q2, Check, d);
    QueueExecFirst(q3, Pop, e);
    QueueExecFirst(q4, Return, []);
    QueueExecNothing(q4.(consumer := Out));
  }

  lemma DeliveryCompletes<T>(q: Queue<T>, v: T)
    requires AtRest(q)
    ensures var r := QueueExec(q, Delivery(v));
            r.Some? && AtRest(r.value) && r.value.popped == q.popped + [v]
  {
    hide PushSteps, PopSteps, QueueExec;
    PushCompletes(q, v);
    var q1 := QueueExec(q, PushSteps(v)).value;
    PopCompletes(q1, v);
    QueueExecConcat(q, PushSteps(v), PopSteps());
  }

  /** The consumer can come back for every value: any list can go through the queue, one after the other. */
  lemma {:induction false} AnyListCanBeDelivered<T>(q: Queue<T>, values: seq<T>) returns (steps: seq<QueueStep<T>>)
    requires AtRest(q)
    ensures QueueExec(q, steps).Some? && AtRest(QueueExec(q, steps).value)
    ensures QueueExec(q, steps).value.popped == q.popped + values
    decreases |values|
  {
    hide Delivery, QueueApply, QueueEnabled;
    if values == [] {
      return [];
    }
    DeliveryCompletes(q, values[0]);
    var q1 := QueueExec(q, Delivery(values[0])).value;
    var rest := AnyListCanBeDelivered(q1, values[1..]);
    QueueExecConcat(q, Delivery(values[0]), rest);
    steps := Delivery(values[0]) + rest;
    assert q.popped + [values[0]] + values[1..] == q.popped + values;
  }
}
