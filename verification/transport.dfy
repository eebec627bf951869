/**
 The HCI transport: the reader thread of `Transport`, the writer thread of `startWriter`, rootcanal's calls of `Write`
 and `Close`, and the queue between them. Both threads end in `Done`. Reads of `mReading` and `mCloseCallback` are
 single steps.
 */
module Transport {
  import opened Bytes
  import opened BlockingQueue

  datatype Packet = Packet(kind: nat, bytes: seq<byte>)

  /** The body of `Done`, statement by statement. `Threw` is the call of an empty `std::function`. */
  datatype DonePc =
    | ClearReading
    | StopQueue
    | Stopping                      // inside `mQueue.Stop()`
    | TestCallback
    | CallCallback
    | ClearCallback
    | Finished(called: bool)
    | Threw

  datatype Reader = Testing | Reading | ReaderDone(done: DonePc)

  datatype Writer = InQueue | Writing(packet: Packet) | WriterDone(done: DonePc)

  /** `overlapped` records whether both threads have been past the callback's test at the same time. */
  datatype State = State(queue: Queue<Packet>, mReading: bool, callback: bool, calls: nat, reader: Reader, writer: Writer,
                         written: seq<Packet>, overlapped: bool)

  /** The two threads as clients of the queue; rootcanal's threads have other numbers. */
  const READER: nat := 0
  const WRITER: nat := 1

  function Start(registered: bool): State {
    State(NewQueue(), true, registered, 0, Testing, InQueue, [], false)
  }

  datatype Step =
    | ReaderTest
    | ReaderRead(ok: bool)
    | WriterReturn
    | WriterWrite(ok: bool)
    | DoneStep(t: nat)
    | Close
    | Push(t: nat, packet: Packet)
    | QueueInternal(step: QueueStep<Packet>)

  function DoneOf(s: State, t: nat): DonePc
    requires InDone(s, t)
  {
    if t == READER then s.reader.done else s.writer.done
  }

  predicate InDone(s: State, t: nat) {
    (t == READER && s.reader.ReaderDone?) || (t == WRITER && s.writer.WriterDone?)
  }

  function SetDone(s: State, t: nat, d: DonePc): State {
    if t == READER then s.(reader := ReaderDone(d)) else s.(writer := WriterDone(d))
  }

  predicate Enabled(s: State, step: Step) {
    match step
    case ReaderTest => s.reader.Testing?
    case ReaderRead(_) => s.reader.Reading?
    case WriterReturn => s.writer.InQueue? && QueueEnabled(s.queue, Return)
    case WriterWrite(_) => s.writer.Writing?
    case DoneStep(t) =>
      InDone(s, t) && !DoneOf(s, t).Finished? && !DoneOf(s, t).Threw?
      && (DoneOf(s, t).StopQueue? || DoneOf(s, t).Stopping? ==> Pc(s.queue, t).Idle?)
    case Close => true
    case Push(t, p) => t != READER && t != WRITER && QueueEnabled(s.queue, Begin(t, PushOf(p)))
    case QueueInternal(q) => !q.Begin? && !q.Return? && (q.StartWait? ==> s.writer.InQueue?) && QueueEnabled(s.queue, q)
  }

  predicate PastTest(d: DonePc) { d.CallCallback? || d.ClearCallback? }

  function DoneApply(s: State, t: nat): State
    requires Enabled(s, DoneStep(t))
  {
    match DoneOf(s, t)
    case ClearReading => SetDone(s, t, StopQueue).(mReading := false)
    case StopQueue => SetDone(s, t, Stopping).(queue := QueueApply(s.queue, Begin(t, StopOf)))
    case Stopping => SetDone(s, t, TestCallback)
    case TestCallback =>
      var other := if t == READER then s.writer.WriterDone? && PastTest(s.writer.done) else s.reader.ReaderDone? && PastTest(s.reader.done);
      if s.callback then SetDone(s, t, CallCallback).(overlapped := s.overlapped || other) else SetDone(s, t, Finished(false))
    case CallCallback => if s.callback then SetDone(s, t, ClearCallback).(calls := s.calls + 1) else SetDone(s, t, Threw)
    case ClearCallback => SetDone(s, t, Finished(true)).(callback := false)
  }

  function Apply(s: State, step: Step): State
    requires Enabled(s, step)
  {
    match step
    case ReaderTest => s.(reader := if s.mReading then Reading else ReaderDone(ClearReading))
    case ReaderRead(ok) => s.(reader := if ok then Testing else ReaderDone(ClearReading))
    case WriterReturn =>
      (match s.queue.consumer.result
       case None => s.(writer := WriterDone(ClearReading), queue := QueueApply(s.queue, Return))
       case Some(p) => s.(writer := Writing(p), queue := QueueApply(s.queue, Return)))
    case WriterWrite(ok) =>
      if ok then s.(writer := InQueue, written := s.written + [s.writer.packet]) else s.(writer := WriterDone(ClearReading))
    case DoneStep(t) => DoneApply(s, t)
    case Close => s.(mReading := false)
    case Push(t, p) => s.(queue := QueueApply(s.queue, Begin(t, PushOf(p))))
    case QueueInternal(q) => s.(queue := QueueApply(s.queue, q))
  }

  function Exec(s: State, steps: seq<Step>): Option<State>
    decreases |steps|
  {
    if steps == [] then Some(s)
    else if Enabled(s, steps[0]) then Exec(Apply(s, steps[0]), steps[1..])
    else None
  }

  /** A thread that is not in `Done` yet stands before its first statement. */
  function DonePos(s: State, t: nat): DonePc {
    if InDone(s, t) then DoneOf(s, t) else ClearReading
  }

  predicate PastStop(d: DonePc) { !d.ClearReading? && !d.StopQueue? && !d.Stopping? }

  /** What a thread at `d` in `Done` and at `c` in the queue says about `stopped` and `mReading`. */
  predicate StopOk(d: DonePc, c: Client<Packet>, stopped: bool, mReading: bool) {
    && (!d.Stopping? ==> c.Idle?)
    && (c.Wanting? || c.Inside? ==> c.action.StopOf?)
    && (d.Stopping? ==> c.Wanting? || c.Inside? || stopped)
    && (PastStop(d) ==> stopped)
    && (!d.ClearReading? ==> !mReading)
  }

  predicate StopInv(s: State, t: nat) { StopOk(DonePos(s, t), Pc(s.queue, t), s.queue.stopped, s.mReading) }

  predicate Over(d: DonePc) { d.Finished? || d.Threw? }

  predicate PassedTest(d: DonePc) { PastTest(d) || d == Finished(true) || d.Threw? }

  /** How often a thread at `d` has invoked the callback. */
  function CallsAt(d: DonePc): nat { if d.ClearCallback? || d == Finished(true) then 1 else 0 }

  /** With the two threads at `a` and `b`. */
  predicate CallbackOk(s: State, registered: bool, a: DonePc, b: DonePc) {
    && s.calls == CallsAt(a) + CallsAt(b)
    && (s.callback || PassedTest(a) || PassedTest(b) ==> registered)
    && (Over(a) || Over(b) ==> !s.callback)
    && (registered && !s.callback ==> Finished(true) in {a, b})
    && (s.overlapped ==> PassedTest(a) && PassedTest(b))
    && (PassedTest(a) && PassedTest(b) ==> s.overlapped)
    && (a.Threw? || b.Threw? ==> s.overlapped)
    && !(a.Threw? && b.Threw?)
    && (PastTest(a) && !s.callback ==> s.overlapped)
    && (PastTest(b) && !s.callback ==> s.overlapped)
  }

  predicate CallbackInv(s: State, registered: bool) { CallbackOk(s, registered, DonePos(s, READER), DonePos(s, WRITER)) }

  /** The writer has put on the stream what it popped, up to the packet in its hands or lost with the stream. */
  predicate WrittenInv(s: State) {
    match s.writer
    case InQueue =>
      s.queue.popped == s.written + (if s.queue.consumer.Back? && s.queue.consumer.result.Some? then [s.queue.consumer.result.value] else [])
    case Writing(p) => s.queue.popped == s.written + [p] && s.queue.consumer.Out?
    case WriterDone(_) => s.written <= s.queue.popped && s.queue.consumer.Out?
  }

  ghost predicate Inv(s: State, registered: bool) {
    QueueInv(s.queue) && StopInv(s, READER) && StopInv(s, WRITER) && CallbackInv(s, registered) && WrittenInv(s)
  }

  lemma StepQueueInv(s: State, step: Step)
    requires QueueInv(s.queue) && WrittenInv(s) && Enabled(s, step)
    ensures QueueInv(Apply(s, step).queue) && (s.queue.stopped ==> Apply(s, step).queue.stopped)
  {
    match step
    case QueueInternal(q) => QueueStepInv(s.queue, q);
    case Push(t, p) => QueueStepInv(s.queue, Begin(t, PushOf(p)));
    case DoneStep(t) =>
      if DoneOf(s, t).StopQueue? { QueueStepInv(s.queue, Begin(t, StopOf)); }
    case WriterReturn => QueueStepInv(s.queue, Return);
    case _ =>
  }

  /** One statement of `Done`, seen from the two positions. */
  lemma DonePositions(s: State, t: nat)
    requires Enabled(s, DoneStep(t))
    ensures var s', d, o := DoneApply(s, t), DoneOf(s, t), DonePos(s, 1 - t);
            && DonePos(s', 1 - t) == o
            && DonePos(s', t) == AfterDone(d, s.callback)
            && s'.callback == (s.callback && !d.ClearCallback?)
            && s'.calls == s.calls + (if d.CallCallback? && s.callback then 1 else 0)
            && s'.overlapped == (s.overlapped || (d.TestCallback? && s.callback && PastTest(o)))
            && s'.mReading == (s.mReading && !d.ClearReading?)
            && s'.queue == (if d.StopQueue? then QueueApply(s.queue, Begin(t, StopOf)) else s.queue)
  {
    hide QueueApply, QueueEnabled;
    if t == READER {
      assert DoneOf(s, t) == s.reader.done;
    } else {
      assert DoneOf(s, t) == s.writer.done;
    }
  }

  function AfterDone(d: DonePc, callback: bool): DonePc {
    match d
    case ClearReading => StopQueue
    case StopQueue => Stopping
    case Stopping => TestCallback
    case TestCallback => if callback then CallCallback else Finished(false)
    case CallCallback => if callback then ClearCallback else Threw
    case _ => Finished(true)
  }

  lemma QueueStopInv(q: Queue<Packet>, step: QueueStep<Packet>, t: nat, d: DonePc, mReading: bool)
    requires StopOk(d, Pc(q, t), q.stopped, mReading) && QueueEnabled(q, step)
    requires step.Begin? ==> step.t != t
    ensures StopOk(d, Pc(QueueApply(q, step), t), QueueApply(q, step).stopped, mReading)
  {
  }

  lemma DoneStopInv(s: State, u: nat, t: nat)
    requires t == READER || t == WRITER
    requires StopInv(s, t) && Enabled(s, DoneStep(u))
    ensures StopInv(DoneApply(s, u), t)
  {
    hide DoneApply;
    DonePositions(s, u);
    if DoneOf(s, u).StopQueue? && u != t {
      hide QueueApply, QueueEnabled;
      QueueStopInv(s.queue, Begin(u, StopOf), t, DonePos(s, t), s.mReading);
    }
  }

  lemma StepStopInv(s: State, step: Step, t: nat)
    requires t == READER || t == WRITER
    requires StopInv(s, READER) && StopInv(s, WRITER) && WrittenInv(s) && Enabled(s, step)
    ensures StopInv(Apply(s, step), t)
  {
    hide QueueApply, QueueEnabled;
    match step
    case DoneStep(u) =>
      hide DoneApply;
      DoneStopInv(s, u, t);
    case QueueInternal(q) => QueueStopInv(s.queue, q, t, DonePos(s, t), s.mReading);
    case WriterReturn => QueueStopInv(s.queue, Return, t, DonePos(s, t), s.mReading);
    case Push(u, p) => QueueStopInv(s.queue, Begin(u, PushOf(p)), t, DonePos(s, t), s.mReading);
    case _ =>
  }

  lemma DoneCallbackInv(s: State, t: nat, registered: bool)
    requires CallbackInv(s, registered) && Enabled(s, DoneStep(t))
    ensures CallbackInv(DoneApply(s, t), registered)
  {
    hide QueueApply, QueueEnabled;
    DonePositions(s, t);
    hide DoneApply;
    var a, b := DonePos(s, t), DonePos(s, 1 - t);
    assert CallbackOk(s, registered, a, b);
    assert CallbackOk(DoneApply(s, t), registered, DonePos(DoneApply(s, t), t), b);
  }

  lemma StepCallbackInv(s: State, step: Step, registered: bool)
    requires CallbackInv(s, registered) && WrittenInv(s) && Enabled(s, step)
    ensures CallbackInv(Apply(s, step), registered)
  {
    hide QueueApply, QueueEnabled;
    if step.DoneStep? {
      DoneCallbackInv(s, step.t, registered);
    } else {
      var s' := Apply(s, step);
      hide CallbackOk;
      assert DonePos(s', READER) == DonePos(s, READER) && DonePos(s', WRITER) == DonePos(s, WRITER);
      assert CallbackOk(s', registered, DonePos(s, READER), DonePos(s, WRITER)) by { SameCallback(s, step, registered); }
    }
  }

  lemma SameCallback(s: State, step: Step, registered: bool)
    requires CallbackInv(s, registered) && Enabled(s, step) && !step.DoneStep?
    ensures CallbackOk(Apply(s, step), registered, DonePos(s, READER), DonePos(s, WRITER))
  {
  }

  lemma QueueWrittenInv(s: State, q: QueueStep<Packet>)
    requires WrittenInv(s) && !q.Return? && (q.StartWait? ==> s.writer.InQueue?) && QueueEnabled(s.queue, q)
    ensures WrittenInv(s.(queue := QueueApply(s.queue, q)))
  {
  }

  lemma ReturnLeavesQueue(q: Queue<Packet>)
    requires QueueEnabled(q, Return)
    ensures QueueApply(q, Return).popped == q.popped && QueueApply(q, Return).consumer.Out? && q.consumer.Back?
  {
  }

  lemma DoneWrittenInv(s: State, t: nat)
    requires WrittenInv(s) && Enabled(s, DoneStep(t))
    ensures WrittenInv(DoneApply(s, t))
  {
    if DoneOf(s, t).StopQueue? {
      hide QueueApply, QueueEnabled;
      QueueWrittenInv(s, Begin(t, StopOf));
    }
  }

  lemma StepWrittenInv(s: State, step: Step)
    requires WrittenInv(s) && Enabled(s, step)
    ensures WrittenInv(Apply(s, step))
  {
    hide QueueApply, QueueEnabled;
    match step
    case QueueInternal(q) => QueueWrittenInv(s, q);
    case Push(t, p) => QueueWrittenInv(s, Begin(t, PushOf(p)));
    case DoneStep(t) => DoneWrittenInv(s, t);
    case WriterReturn => ReturnLeavesQueue(s.queue);
    case _ =>
  }

  lemma {:induction false} ExecInv(s: State, steps: seq<Step>, registered: bool)
    requires Inv(s, registered) && Exec(s, steps).Some?
    ensures Inv(Exec(s, steps).value, registered)
    ensures s.queue.stopped ==> Exec(s, steps).value.queue.stopped
    decreases |steps|
  {
    hide Enabled, Apply, QueueInv, CallbackInv, StopInv, WrittenInv;
    if steps != [] {
      StepQueueInv(s, steps[0]);
      StepStopInv(s, steps[0], READER);
      StepStopInv(s, steps[0], WRITER);
      StepCallbackInv(s, steps[0], registered);
      StepWrittenInv(s, steps[0]);
      ExecInv(Apply(s, steps[0]), steps[1..], registered);
    }
  }

  lemma StartInv(registered: bool)
    ensures Inv(Start(registered), registered)
  {
  }

  /**
   When both threads have finished `Done`, in any interleaving with each other and with rootcanal's threads, the queue
   is stopped, reading is off, and a registered callback is reset after one or two invocations: two exactly if one
   thread tested it between the other's test and reset.
   */
  lemma Shutdown(registered: bool, steps: seq<Step>)
    requires Exec(Start(registered), steps).Some?
    requires var s := Exec(Start(registered), steps).value; DonePos(s, READER).Finished? && DonePos(s, WRITER).Finished?
    ensures var s := Exec(Start(registered), steps).value;
            && s.queue.stopped && !s.mReading && !s.callback
            && s.calls == (if !registered then 0 else if s.overlapped then 2 else 1)
  {
    StartInv(registered);
    ExecInv(Start(registered), steps, registered);
  }

  /**
   `Done` does what it is for, no thread calling an empty `std::function` and one invocation in all, if and only if the
   two did not overlap.
   */
  lemma ExactlyOnceIffNoOverlap(steps: seq<Step>)
    requires Exec(Start(true), steps).Some?
    requires var s := Exec(Start(true), steps).value; Over(DonePos(s, READER)) && Over(DonePos(s, WRITER))
    ensures var s := Exec(Start(true), steps).value;
            !s.overlapped <==> s.calls == 1 && DonePos(s, READER).Finished? && DonePos(s, WRITER).Finished?
  {
    StartInv(true);
    ExecInv(Start(true), steps, true);
  }

  // ------------------------------------------------------------ what a run pushes, writes and reads

  /** The packets that the `Push` calls of a run have put into the queue. */
  function PushedIn(s: State, steps: seq<Step>): seq<Packet>
    decreases |steps|
  {
    if steps == [] || !Enabled(s, steps[0]) then [] else
      var rest := PushedIn(Apply(s, steps[0]), steps[1..]);
      if PushesNow(s, steps[0]) then [Pc(s.queue, steps[0].step.t).action.value] + rest else rest
  }

  predicate PushesNow(s: State, step: Step) {
    step.QueueInternal? && step.step.Change? && Pc(s.queue, step.step.t).Inside? && Pc(s.queue, step.step.t).action.PushOf?
  }

  /** The packets whose writing to the stream has succeeded. */
  function WrittenIn(s: State, steps: seq<Step>): seq<Packet>
    decreases |steps|
  {
    if steps == [] || !Enabled(s, steps[0]) then [] else
      var rest := WrittenIn(Apply(s, steps[0]), steps[1..]);
      if steps[0] == WriterWrite(true) then [s.writer.packet] + rest else rest
  }

  /** How often the reader calls `Read`, and the writer `Write`, on the stream. */
  function ReadsIn(steps: seq<Step>): nat {
    if steps == [] then 0 else (if steps[0].ReaderRead? then 1 else 0) + ReadsIn(steps[1..])
  }

  function WritesIn(steps: seq<Step>): nat {
    if steps == [] then 0 else (if steps[0].WriterWrite? then 1 else 0) + WritesIn(steps[1..])
  }

  lemma StepLogs(s: State, step: Step)
    requires Enabled(s, step)
    ensures Apply(s, step).queue.pushed
            == s.queue.pushed + (if PushesNow(s, step) then [Pc(s.queue, step.step.t).action.value] else [])
    ensures Apply(s, step).written == s.written + (if step == WriterWrite(true) then [s.writer.packet] else [])
  {
    match step
    case DoneStep(t) =>
      hide QueueApply, QueueEnabled;
      if DoneOf(s, t).StopQueue? { BeginPushesNothing(s.queue, t, StopOf); }
    case Push(t, p) =>
      hide QueueApply, QueueEnabled;
      BeginPushesNothing(s.queue, t, PushOf(p));
    case _ =>
  }

  lemma BeginPushesNothing(q: Queue<Packet>, t: nat, a: Action<Packet>)
    requires QueueEnabled(q, Begin(t, a))
    ensures QueueApply(q, Begin(t, a)).pushed == q.pushed
  {
  }

  lemma {:induction false} LogsAreTheRun(s: State, steps: seq<Step>)
    requires Exec(s, steps).Some?
    ensures Exec(s, steps).value.queue.pushed == s.queue.pushed + PushedIn(s, steps)
    ensures Exec(s, steps).value.written == s.written + WrittenIn(s, steps)
    decreases |steps|
  {
    hide Apply, Enabled, PushesNow;
    if steps != [] {
      StepLogs(s, steps[0]);
      LogsAreTheRun(Apply(s, steps[0]), steps[1..]);
    }
  }

  /**
   Over every run, the packets written to the stream are a prefix of those pushed; while the writer runs, what they lack
   is queued but for at most one packet in the writer's hands.
   */
  lemma WrittenInOrder(registered: bool, steps: seq<Step>)
    requires Exec(Start(registered), steps).Some?
    ensures WrittenIn(Start(registered), steps) <= PushedIn(Start(registered), steps)
    ensures var s := Exec(Start(registered), steps).value;
            !s.writer.WriterDone? ==>
              var held := |PushedIn(Start(registered), steps)| - |WrittenIn(Start(registered), steps)| - |s.queue.items|;
              0 <= held <= 1
  {
    StartInv(registered);
    ExecInv(Start(registered), steps, registered);
    LogsAreTheRun(Start(registered), steps);
    hide Exec, PushedIn, WrittenIn, StopInv, CallbackInv;
    assert [] + PushedIn(Start(registered), steps) == PushedIn(Start(registered), steps);
    assert [] + WrittenIn(Start(registered), steps) == WrittenIn(Start(registered), steps);
  }

  lemma StaysInDone(s: State, step: Step)
    requires Enabled(s, step)
    ensures s.reader.ReaderDone? ==> Apply(s, step).reader.ReaderDone? && !step.ReaderRead?
    ensures s.writer.WriterDone? ==> Apply(s, step).writer.WriterDone? && !step.WriterWrite?
  {
    hide QueueApply, QueueEnabled;
  }

  /** A thread that has entered `Done` has left its loop for good. */
  lemma {:induction false} DoneLeavesLoop(s: State, steps: seq<Step>)
    requires Exec(s, steps).Some?
    ensures s.reader.ReaderDone? ==> ReadsIn(steps) == 0
    ensures s.writer.WriterDone? ==> WritesIn(steps) == 0
    decreases |steps|
  {
    if steps != [] {
      hide Apply, Enabled;
      StaysInDone(s, steps[0]);
      DoneLeavesLoop(Apply(s, steps[0]), steps[1..]);
    }
  }

  /** The first failed read or write, and the first `WaitAndPop` that returns false, is the last of its thread. */
  lemma FailureEndsLoop(s: State, step: Step, steps: seq<Step>)
    requires Enabled(s, step) && Exec(Apply(s, step), steps).Some?
    ensures step == ReaderRead(false) ==> ReadsIn(steps) == 0
    ensures step == WriterWrite(false) || (step == WriterReturn && s.queue.consumer.result == None) ==> WritesIn(steps) == 0
  {
    DoneLeavesLoop(Apply(s, step), steps);
    hide Exec, QueueApply, QueueEnabled;
  }

  lemma {:induction false} NotReadingStays(s: State, steps: seq<Step>)
    requires Exec(s, steps).Some? && !s.mReading
    ensures !Exec(s, steps).value.mReading && ReadsIn(steps) <= if s.reader.Reading? then 1 else 0
    decreases |steps|
  {
    if steps != [] {
      hide QueueApply, QueueEnabled;
      NotReadingStays(Apply(s, steps[0]), steps[1..]);
    }
  }

  /** After rootcanal's `Close`, or either thread's first statement of `Done`, the reader reads at most once more. */
  lemma CloseStopsReading(s: State, step: Step, steps: seq<Step>)
    requires Enabled(s, step) && Exec(Apply(s, step), steps).Some?
    requires step == Close || (step.DoneStep? && DoneOf(s, step.t).ClearReading?)
    ensures ReadsIn(steps) <= 1 && !Exec(Apply(s, step), steps).value.mReading
  {
    if step.DoneStep? { DonePositions(s, step.t); }
    hide DoneApply, Exec, QueueApply, QueueEnabled;
    NotReadingStays(Apply(s, step), steps);
  }

  /**
   In every reachable state of the transport, with the writer popping as often as it likes, a writer asleep on a stopped
   or non-empty queue has a notification coming, from the reader or from one of rootcanal's threads.
   */
  lemma WriterIsWoken(registered: bool, steps: seq<Step>)
    requires Exec(Start(registered), steps).Some?
    requires var s := Exec(Start(registered), steps).value; s.queue.consumer.Sleeping? && Awaited(s.queue)
    ensures exists t :: t != WRITER && WillNotify(Exec(Start(registered), steps).value.queue, t)
  {
    StartInv(registered);
    ExecInv(Start(registered), steps, registered);
    var q := Exec(Start(registered), steps).value.queue;
    var t :| WillNotify(q, t);
    assert t != WRITER;
  }

  /** A thread in `Done` is never stuck: it can step, or it waits for the lock and the lock's holder can step. */
  lemma DoneIsNeverStuck(s: State, registered: bool, t: nat)
    requires Inv(s, registered) && InDone(s, t) && !Over(DoneOf(s, t))
    ensures || Enabled(s, DoneStep(t))
            || (exists q: QueueStep<Packet> :: Enabled(s, QueueInternal(q)) && q in {Acquire(t), Change(t), Release(t), Notify(t)})
            || (s.queue.holder.ByClient? && exists q: QueueStep<Packet> ::
                  Enabled(s, QueueInternal(q)) && q in {Change(s.queue.holder.id), Release(s.queue.holder.id)})
            || (s.queue.holder.ByConsumer? && exists q: QueueStep<Packet> :: Enabled(s, QueueInternal(q)) && q in {Check, Pop})
  {
    if !Enabled(s, DoneStep(t)) {
      var c := Pc(s.queue, t);
      if c.Wanting? {
        match s.queue.holder
        case Free => assert Enabled(s, QueueInternal(Acquire(t)));
        case ByConsumer => assert Enabled(s, QueueInternal(Check)) || Enabled(s, QueueInternal(Pop));
        case ByClient(u) => assert Enabled(s, QueueInternal(Change(u))) || Enabled(s, QueueInternal(Release(u)));
      } else {
        assert Enabled(s, QueueInternal(Change(t))) || Enabled(s, QueueInternal(Release(t))) || Enabled(s, QueueInternal(Notify(t)));
      }
    }
  }

  ghost predicate Reachable(s: State) { exists steps :: Exec(Start(true), steps) == Some(s) }

  lemma {:induction false} ExecSnoc(s: State, steps: seq<Step>, step: Step)
    requires Exec(s, steps).Some? && Enabled(Exec(s, steps).value, step)
    ensures Exec(s, steps + [step]) == Some(Apply(Exec(s, steps).value, step))
    decreases |steps|
  {
    hide Enabled, Apply;
    if steps == [] {
      assert steps + [step] == [step] && [step][1..] == [];
    } else {
      assert (steps + [step])[0] == steps[0] && (steps + [step])[1..] == steps[1..] + [step];
      ExecSnoc(Apply(s, steps[0]), steps[1..], step);
    }
  }

  lemma Reach(s: State, step: Step)
    requires Reachable(s) && Enabled(s, step)
    ensures Reachable(Apply(s, step))
  {
    hide Enabled, Apply;
    var steps :| Exec(Start(true), steps) == Some(s);
    ExecSnoc(Start(true), steps, step);
  }

  /** The peer closes the stream: the reader fails, and has stopped the queue. */
  function ReaderHasStopped(): State {
    State(Queue([], true, Free, map[READER := Idle], Out, [], []), false, true, 0, ReaderDone(TestCallback), InQueue, [], false)
  }

  lemma ReaderHasStoppedIsReachable()
    ensures Reachable(ReaderHasStopped())
  {
    var s0 := Start(true);
    assert Exec(s0, []) == Some(s0);
    var s1, s2 := s0.(reader := Reading), s0.(reader := ReaderDone(ClearReading));
    Reach(s0, ReaderTest);
    Reach(s1, ReaderRead(false));
    var s3 := s2.(reader := ReaderDone(StopQueue), mReading := false);
    Reach(s2, DoneStep(READER));
    var s4 := s3.(reader := ReaderDone(Stopping), queue := SetPc(s3.queue, READER, Wanting(StopOf)));
    Reach(s3, DoneStep(READER));
    ReaderStopsQueue(s4);
  }

  lemma ReaderStopsQueue(s: State)
    requires s == State(Queue([], false, Free, map[READER := Wanting(StopOf)], Out, [], []), false, true, 0, ReaderDone(Stopping), InQueue, [], false)
    requires Reachable(s)
    ensures Reachable(ReaderHasStopped())
  {
    var q1 := s.queue.(clients := map[READER := Inside(StopOf)], holder := ByClient(READER));
    assert QueueApply(s.queue, Acquire(READER)) == q1;
    Reach(s, QueueInternal(Acquire(READER)));
    var q2 := q1.(clients := map[READER := Changed], stopped := true);
    assert QueueApply(q1, Change(READER)) == q2;
    Reach(s.(queue := q1), QueueInternal(Change(READER)));
    ReaderUnlocks(s.(queue := q2));
  }

  lemma ReaderUnlocks(s: State)
    requires s == State(Queue([], true, ByClient(READER), map[READER := Changed], Out, [], []), false, true, 0, ReaderDone(Stopping), InQueue, [], false)
    requires Reachable(s)
    ensures Reachable(ReaderHasStopped())
  {
    var q2 := s.queue;
    var q3 := q2.(clients := map[READER := Notifying], holder := Free);
    assert QueueApply(q2, Release(READER)) == q3;
    Reach(s, QueueInternal(Release(READER)));
    ReaderNotifies(s.(queue := q3));
  }

  lemma ReaderNotifies(s: State)
    requires s == State(Queue([], true, Free, map[READER := Notifying], Out, [], []), false, true, 0, ReaderDone(Stopping), InQueue, [], false)
    requires Reachable(s)
    ensures Reachable(ReaderHasStopped())
  {
    var q4 := s.queue.(clients := map[READER := Idle]);
    assert QueueApply(s.queue, Notify(READER)) == q4;
    Reach(s, QueueInternal(Notify(READER)));
    Reach(s.(queue := q4), DoneStep(READER));
  }

  /** Both threads have seen the callback set, and neither has invoked it. */
  function BothPastTest(): State {
    State(Queue([], true, Free, map[READER := Idle, WRITER := Idle], Out, [], []), false, true, 0,
          ReaderDone(CallCallback), WriterDone(CallCallback), [], true)
  }

  lemma WriterFollows()
    ensures Reachable(BothPastTest())
  {
    ReaderHasStoppedIsReachable();
    var s := ReaderHasStopped();
    var q1, q2, q3 := s.queue.(consumer := Acquiring), s.queue.(consumer := Checking, holder := ByConsumer), s.queue.(consumer := Ready, holder := ByConsumer);
    Reach(s, QueueInternal(StartWait));
    Reach(s.(queue := q1), QueueInternal(ConsumerAcquire));
    Reach(s.(queue := q2), QueueInternal(Check));
    Reach(s.(queue := q3), QueueInternal(Pop));
    Reach(s.(queue := s.queue.(consumer := Back(None))), WriterReturn);
    var s1 := s.(writer := WriterDone(ClearReading));
    WriterStops(s1);
  }

  lemma WriterStops(s: State)
    requires s == ReaderHasStopped().(writer := WriterDone(ClearReading)) && Reachable(s)
    ensures Reachable(BothPastTest())
  {
    Reach(s, DoneStep(WRITER));
    var s1 := s.(writer := WriterDone(StopQueue));
    assert QueueApply(s.queue, Begin(WRITER, StopOf)) == s.queue.(clients := map[READER := Idle, WRITER := Notifying]);
    Reach(s1, DoneStep(WRITER));
    var q2 := s.queue.(clients := map[READER := Idle, WRITER := Notifying]);
    var q3 := q2.(clients := map[READER := Idle, WRITER := Idle]);
    assert QueueApply(q2, Notify(WRITER)) == q3;
    var s2 := s.(writer := WriterDone(Stopping), queue := q2);
    Reach(s2, QueueInternal(Notify(WRITER)));
    BothTest(s2.(queue := q3));
  }

  lemma BothTest(s: State)
    requires s == BothPastTest().(reader := ReaderDone(TestCallback), writer := WriterDone(Stopping), overlapped := false)
    requires Reachable(s)
    ensures Reachable(BothPastTest())
  {
    Reach(s, DoneStep(WRITER));
    var s4 := s.(writer := WriterDone(TestCallback));
    Reach(s4, DoneStep(READER));
    Reach(s4.(reader := ReaderDone(CallCallback)), DoneStep(WRITER));
  }

  /** The race is real: from a reachable state, one order invokes the callback twice, another invokes an empty function. */
  lemma OverlapBreaksTheCallback()
    ensures exists twice :: Reachable(twice) && twice.calls == 2 && DonePos(twice, READER).Finished? && DonePos(twice, WRITER).Finished?
    ensures exists threw :: Reachable(threw) && DonePos(threw, READER).Finished? && DonePos(threw, WRITER).Threw?
  {
    WriterFollows();
    var s := BothPastTest();
    Reach(s, DoneStep(READER));
    var r1 := s.(reader := ReaderDone(ClearCallback), calls := 1);
    Reach(r1, DoneStep(READER));
    var r2 := r1.(reader := ReaderDone(Finished(true)), callback := false);
    Reach(r2, DoneStep(WRITER));
    assert Reachable(r2.(writer := WriterDone(Threw)));
    Reach(r1, DoneStep(WRITER));
    var b2 := r1.(writer := WriterDone(ClearCallback), calls := 2);
    Reach(b2, DoneStep(READER));
    var b3 := b2.(reader := ReaderDone(Finished(true)), callback := false);
    Reach(b3, DoneStep(WRITER));
    assert Reachable(b3.(writer := WriterDone(Finished(true))));
  }
}
