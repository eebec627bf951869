/**
 The thread pool as interleaved steps of its workers and its owner. A worker locks the receiver, receives while it
 holds the lock, lets the lock go at the end of the `let` statement and only then runs the job.
 */
module ThreadPool {
  import opened Bytes

  datatype Job = Job(id: nat, panics: bool)

  datatype Phase =
    | Waiting                          // about to lock the receiver
    | Holding                          // in `recv`, the lock held
    | Received(message: Option<Job>)   // `recv` has returned, the guard is still alive; None is a disconnect
    | Running(job: Job)
    | Exited
    | Panicked

  /** The thread that owns the pool. `Failed` is a panic of `unwrap` in `execute` or in `drop`. */
  datatype Owner = Using | Joining(next: nat) | Returned | Failed

  datatype Pool = Pool(queue: seq<Job>, senderDropped: bool, holder: Option<nat>, workers: seq<Phase>, owner: Owner,
                       submitted: seq<Job>, taken: seq<Job>, done: multiset<Job>, crashed: multiset<Job>)

  function New(size: nat): Pool {
    Pool([], false, None, seq(size, _ => Waiting), Using, [], [], multiset{}, multiset{})
  }

  datatype Step =
    | Execute(job: Job)
    | Drop
    | Join
    | Lock(worker: nat)
    | Recv(worker: nat)
    | Unlock(worker: nat)
    | Finish(worker: nat)

  predicate Ended(p: Phase) { p.Exited? || p.Panicked? }

  /** The receiver lives as long as some worker's closure does. */
  predicate ReceiverGone(s: Pool) { forall i :: 0 <= i < |s.workers| ==> Ended(s.workers[i]) }

  predicate Enabled(s: Pool, step: Step) {
    match step
    case Execute(_) => s.owner == Using
    case Drop => s.owner == Using
    case Join => s.owner.Joining? && (s.owner.next < |s.workers| ==> Ended(s.workers[s.owner.next]))
    case Lock(i) => i < |s.workers| && s.workers[i] == Waiting && s.holder == None
    case Recv(i) => i < |s.workers| && s.workers[i] == Holding && (s.queue != [] || s.senderDropped)
    case Unlock(i) => i < |s.workers| && s.workers[i].Received?
    case Finish(i) => i < |s.workers| && s.workers[i].Running?
  }

  function Apply(s: Pool, step: Step): Pool
    requires Enabled(s, step)
  {
    match step
    case Execute(job) =>
      if ReceiverGone(s) then s.(owner := Failed)
      else s.(queue := s.queue + [job], submitted := s.submitted + [job])
    case Drop => s.(senderDropped := true, owner := Joining(0))
    case Join =>
      var n := s.owner.next;
      if n >= |s.workers| then s.(owner := Returned)
      else if s.workers[n] == Panicked then s.(owner := Failed)
      else s.(owner := Joining(n + 1))
    case Lock(i) => s.(holder := Some(i), workers := s.workers[i := Holding])
    case Recv(i) =>
      if s.queue == [] then s.(workers := s.workers[i := Received(None)])
      else s.(queue := s.queue[1..], taken := s.taken + [s.queue[0]], workers := s.workers[i := Received(Some(s.queue[0]))])
    case Unlock(i) =>
      s.(holder := None, workers := s.workers[i := if s.workers[i].message == None then Exited else Running(s.workers[i].message.value)])
    case Finish(i) =>
      var job := s.workers[i].job;
      if job.panics then s.(workers := s.workers[i := Panicked], crashed := s.crashed + multiset{job})
      else s.(workers := s.workers[i := Waiting], done := s.done + multiset{job})
  }

  /** The state after a sequence of steps, if each is enabled in its turn. */
  function Exec(s: Pool, steps: seq<Step>): Option<Pool>
    decreases |steps|
  {
    if steps == [] then Some(s)
    else if Enabled(s, steps[0]) then Exec(Apply(s, steps[0]), steps[1..])
    else None
  }

  // ---------------------------------------------------------------- jobs in the workers' hands

  function JobsOf(p: Phase): multiset<Job> {
    match p
    case Received(Some(j)) => multiset{j}
    case Running(j) => multiset{j}
    case _ => multiset{}
  }

  function InFlight(ws: seq<Phase>): multiset<Job> {
    if ws == [] then multiset{} else JobsOf(ws[0]) + InFlight(ws[1..])
  }

  lemma {:induction false} InFlightUpdate(ws: seq<Phase>, i: nat, p: Phase)
    requires i < |ws|
    ensures InFlight(ws[i := p]) + JobsOf(ws[i]) == InFlight(ws) + JobsOf(p)
  {
    if i == 0 {
      assert ws[0 := p][1..] == ws[1..];
    } else {
      assert ws[i := p][1..] == ws[1..][i - 1 := p];
      InFlightUpdate(ws[1..], i - 1, p);
      var first, a, b := JobsOf(ws[0]), InFlight(ws[1..]), InFlight(ws[1..][i - 1 := p]);
      assert first + b + JobsOf(ws[i]) == first + (b + JobsOf(ws[i])) == first + (a + JobsOf(p)) == first + a + JobsOf(p);
    }
  }

  lemma {:induction false} InFlightNone(ws: seq<Phase>)
    requires forall i :: 0 <= i < |ws| ==> JobsOf(ws[i]) == multiset{}
    ensures InFlight(ws) == multiset{}
  {
    if ws != [] { InFlightNone(ws[1..]); }
  }

  // ---------------------------------------------------------------- invariant

  ghost predicate Conserved(s: Pool) {
    && s.submitted == s.taken + s.queue
    && multiset(s.taken) == InFlight(s.workers) + s.done + s.crashed
  }

  ghost predicate LockInv(s: Pool) {
    && (forall i :: 0 <= i < |s.workers| ==> (s.workers[i].Holding? || s.workers[i].Received? <==> s.holder == Some(i)))
    && (s.holder.Some? ==> s.holder.value < |s.workers|)
  }

  /** A worker is told to stop only when nothing is queued and nothing can be any more. */
  ghost predicate StopInv(s: Pool) {
    && |s.workers| > 0
    && (forall i :: 0 <= i < |s.workers| && (s.workers[i].Exited? || s.workers[i] == Received(None)) ==> s.senderDropped && s.queue == [])
    && (s.owner == Using ==> !s.senderDropped)
    && (s.owner.Joining? || s.owner == Returned ==> s.senderDropped)
    && (s.owner.Joining? ==> s.owner.next <= |s.workers| && forall i :: 0 <= i < s.owner.next ==> s.workers[i] == Exited)
    && (s.owner == Returned ==> forall i :: 0 <= i < |s.workers| ==> s.workers[i] == Exited)
    && (s.owner == Failed && s.senderDropped ==> exists i :: 0 <= i < |s.workers| && s.workers[i] == Panicked)
  }

  ghost predicate HasPanicked(ws: seq<Phase>) { exists i :: 0 <= i < |ws| && ws[i] == Panicked }

  /** A job has crashed if and only if a worker has panicked. */
  ghost predicate CrashInv(s: Pool) {
    && (forall j :: j in s.crashed ==> j.panics)
    && (s.crashed != multiset{} <==> HasPanicked(s.workers))
  }

  ghost predicate Inv(s: Pool) { Conserved(s) && LockInv(s) && StopInv(s) && CrashInv(s) }

  /** Moving one job between a worker and the logs keeps the balance. */
  lemma Balance(ws: seq<Phase>, i: nat, p: Phase, logged: multiset<Job>, gone: multiset<Job>, total: multiset<Job>, added: multiset<Job>)
    requires i < |ws| && total == InFlight(ws) + logged
    requires JobsOf(ws[i]) + added == JobsOf(p) + gone
    ensures total + added == InFlight(ws[i := p]) + (logged + gone)
  {
    InFlightUpdate(ws, i, p);
    var a, b := InFlight(ws), InFlight(ws[i := p]);
    forall j ensures (total + added)[j] == (b + (logged + gone))[j] {
      assert (b + JobsOf(ws[i]))[j] == (a + JobsOf(p))[j];
      assert (JobsOf(ws[i]) + added)[j] == (JobsOf(p) + gone)[j];
    }
  }

  /** Phases change, no job moves. */
  lemma BalanceKept(ws: seq<Phase>, i: nat, p: Phase)
    requires i < |ws| && JobsOf(ws[i]) == JobsOf(p)
    ensures InFlight(ws[i := p]) == InFlight(ws)
  {
    InFlightUpdate(ws, i, p);
    forall j ensures InFlight(ws[i := p])[j] == InFlight(ws)[j] {
      assert (InFlight(ws[i := p]) + JobsOf(ws[i]))[j] == (InFlight(ws) + JobsOf(p))[j];
    }
  }

  lemma ConservedRecv(s: Pool, i: nat)
    requires Conserved(s) && Enabled(s, Recv(i)) && s.queue != []
    ensures Conserved(Apply(s, Recv(i)))
  {
    var total, logged, none := multiset(s.taken), s.done + s.crashed, multiset{};
    hide InFlight;
    Balance(s.workers, i, Received(Some(s.queue[0])), logged, none, total, multiset{s.queue[0]});
    assert logged + none == logged;
    assert s.taken + s.queue == s.taken + [s.queue[0]] + s.queue[1..];
  }

  lemma ConservedFinish(s: Pool, i: nat)
    requires Conserved(s) && Enabled(s, Finish(i))
    ensures Conserved(Apply(s, Finish(i)))
  {
    var total, logged, none := multiset(s.taken), s.done + s.crashed, multiset{};
    hide InFlight;
    var job := s.workers[i].job;
    Balance(s.workers, i, if job.panics then Panicked else Waiting, logged, multiset{job}, total, none);
    assert total + none == total;
    assert s.done + s.crashed + multiset{job} == s.done + (s.crashed + multiset{job}) == s.done + multiset{job} + s.crashed;
  }

  lemma ConservedExecute(s: Pool, job: Job)
    requires Conserved(s) && Enabled(s, Execute(job))
    ensures Conserved(Apply(s, Execute(job)))
  {
  }

  /** A worker moves, but no job does. */
  lemma ConservedMove(s: Pool, step: Step, i: nat)
    requires Conserved(s) && Enabled(s, step)
    requires step == Lock(i) || step == Unlock(i) || (step == Recv(i) && s.queue == [])
    ensures Conserved(Apply(s, step))
  {
    BalanceKept(s.workers, i, Apply(s, step).workers[i]);
    hide InFlight;
  }

  lemma ConservedOwner(s: Pool, step: Step)
    requires Conserved(s) && Enabled(s, step) && (step == Drop || step == Join)
    ensures Conserved(Apply(s, step))
  {
  }

  lemma ConservedStep(s: Pool, step: Step)
    requires Conserved(s) && Enabled(s, step)
    ensures Conserved(Apply(s, step))
  {
    hide Conserved, InFlight, Enabled, Apply;
    match step
    case Execute(job) => ConservedExecute(s, job);
    case Lock(i) => ConservedMove(s, step, i);
    case Recv(i) => if s.queue == [] { ConservedMove(s, step, i); } else { ConservedRecv(s, i); }
    case Unlock(i) => ConservedMove(s, step, i);
    case Finish(i) => ConservedFinish(s, i);
    case _ => ConservedOwner(s, step);
  }

  lemma LockStep(s: Pool, step: Step)
    requires LockInv(s) && Enabled(s, step)
    ensures LockInv(Apply(s, step))
  {
  }

  lemma StopStep(s: Pool, step: Step)
    requires StopInv(s) && Enabled(s, step)
    ensures StopInv(Apply(s, step))
  {
    var s' := Apply(s, step);
    if s.owner == Failed && s.senderDropped {
      var w :| 0 <= w < |s.workers| && s.workers[w] == Panicked;
      assert s'.workers[w] == Panicked;
    }
    if step == Join && s'.owner == Failed { assert s'.workers[s.owner.next] == Panicked; }
  }

  lemma PanickedUpdate(ws: seq<Phase>, i: nat, p: Phase)
    requires i < |ws| && ws[i] != Panicked
    ensures HasPanicked(ws[i := p]) <==> HasPanicked(ws) || p == Panicked
  {
    if HasPanicked(ws) {
      var j :| 0 <= j < |ws| && ws[j] == Panicked;
      assert ws[i := p][j] == Panicked;
    }
    if p == Panicked { assert ws[i := p][i] == Panicked; }
  }

  lemma CrashFinish(s: Pool, i: nat)
    requires CrashInv(s) && Enabled(s, Finish(i))
    ensures CrashInv(Apply(s, Finish(i)))
  {
    var s', job := Apply(s, Finish(i)), s.workers[i].job;
    PanickedUpdate(s.workers, i, s'.workers[i]);
    assert job.panics ==> job in s'.crashed;
    hide HasPanicked;
  }

  lemma CrashStep(s: Pool, step: Step)
    requires CrashInv(s) && Enabled(s, step)
    ensures CrashInv(Apply(s, step))
  {
    if step.Lock? || step.Recv? || step.Unlock? {
      PanickedUpdate(s.workers, step.worker, Apply(s, step).workers[step.worker]);
    } else if step.Finish? {
      CrashFinish(s, step.worker);
      hide Apply;
    }
    hide HasPanicked;
  }

  lemma StepKeepsInv(s: Pool, step: Step)
    requires Inv(s) && Enabled(s, step)
    ensures Inv(Apply(s, step))
  {
    hide Conserved, LockInv, StopInv, CrashInv, Apply, Enabled;
    ConservedStep(s, step);
    LockStep(s, step);
    StopStep(s, step);
    CrashStep(s, step);
  }

  lemma NewInv(size: nat)
    requires size > 0
    ensures Inv(New(size))
  {
    InFlightNone(New(size).workers);
  }

  lemma {:induction false} ExecKeepsInv(s: Pool, steps: seq<Step>)
    requires Inv(s) && Exec(s, steps).Some?
    ensures Inv(Exec(s, steps).value)
    decreases |steps|
  {
    hide Inv;
    if steps != [] {
      StepKeepsInv(s, steps[0]);
      ExecKeepsInv(Apply(s, steps[0]), steps[1..]);
    }
  }

  // ---------------------------------------------------------------- the jobs of a run

  /** The jobs given to `execute`, in order. */
  function JobsIn(steps: seq<Step>): seq<Job> {
    if steps == [] then []
    else if steps[0].Execute? then [steps[0].job] + JobsIn(steps[1..])
    else JobsIn(steps[1..])
  }

  /** `send` has failed, and `execute` has panicked. */
  predicate SendFailed(s: Pool) { s.owner == Failed && !s.senderDropped }

  /** A pool whose owner has panicked in `execute` takes no more jobs. */
  lemma {:induction false} FailedTakesNothing(s: Pool, steps: seq<Step>)
    requires SendFailed(s) && Exec(s, steps).Some?
    ensures JobsIn(steps) == [] && SendFailed(Exec(s, steps).value) && Exec(s, steps).value.submitted == s.submitted
    decreases |steps|
  {
    if steps != [] { FailedTakesNothing(Apply(s, steps[0]), steps[1..]); }
  }

  /** What the pool has recorded as submitted is what the run gave it, all but the last job if its sending failed. */
  lemma {:induction false} SubmittedIsWhatWasGiven(s: Pool, steps: seq<Step>)
    requires Inv(s) && Exec(s, steps).Some? && !SendFailed(s)
    ensures var s' := Exec(s, steps).value;
            if SendFailed(s') then exists lost :: s'.submitted + [lost] == s.submitted + JobsIn(steps)
            else s'.submitted == s.submitted + JobsIn(steps)
    decreases |steps|
  {
    hide Inv;
    if steps != [] {
      var s1 := Apply(s, steps[0]);
      ExecuteSubmits(s, steps[0]);
      StepKeepsInv(s, steps[0]);
      hide Apply;
      if SendFailed(s1) {
        FailedTakesNothing(s1, steps[1..]);
        assert s.submitted + JobsIn(steps) == s.submitted + [steps[0].job];
      } else {
        SubmittedIsWhatWasGiven(s1, steps[1..]);
        if steps[0].Execute? { Regroup(s.submitted, steps[0].job, JobsIn(steps[1..])); }
      }
    }
  }

  lemma Regroup(a: seq<Job>, x: Job, b: seq<Job>)
    ensures a + ([x] + b) == a + [x] + b
  {
  }

  lemma ExecuteSubmits(s: Pool, step: Step)
    requires Inv(s) && Enabled(s, step) && !SendFailed(s)
    ensures SendFailed(Apply(s, step)) ==> step.Execute? && Apply(s, step).submitted == s.submitted
    ensures !SendFailed(Apply(s, step)) ==> Apply(s, step).submitted == s.submitted + (if step.Execute? then [step.job] else [])
  {
    hide Conserved, LockInv, CrashInv;
  }

  /** While the sender lives, `execute` panics if and only if every worker has panicked. */
  lemma ExecutePanicsIffNoWorkerLeft(size: nat, steps: seq<Step>, job: Job)
    requires size > 0 && Exec(New(size), steps).Some? && Exec(New(size), steps).value.owner == Using
    ensures var s := Exec(New(size), steps).value;
            Apply(s, Execute(job)).owner == Failed <==> forall i :: 0 <= i < |s.workers| ==> s.workers[i] == Panicked
  {
    NewInv(size);
    ExecKeepsInv(New(size), steps);
  }

  // ---------------------------------------------------------------- exactly once

  /**
   In every interleaving the jobs given to `execute` are those taken, in order, followed by those queued, and a last one
   whose sending failed; and each taken job is in exactly one place: in a worker's hands, done, or crashed.
   */
  lemma ExactlyOnce(size: nat, steps: seq<Step>)
    requires size > 0 && Exec(New(size), steps).Some?
    ensures var s := Exec(New(size), steps).value;
            && multiset(s.taken) == InFlight(s.workers) + s.done + s.crashed
            && if SendFailed(s) then exists lost :: s.taken + s.queue + [lost] == JobsIn(steps)
               else s.taken + s.queue == JobsIn(steps)
  {
    NewInv(size);
    ExecKeepsInv(New(size), steps);
    SubmittedIsWhatWasGiven(New(size), steps);
    assert [] + JobsIn(steps) == JobsIn(steps);
  }

  /** No worker is lost or added. */
  lemma {:induction false} WorkersStay(s: Pool, steps: seq<Step>)
    requires Exec(s, steps).Some?
    ensures |Exec(s, steps).value.workers| == |s.workers|
    decreases |steps|
  {
    if steps != [] { WorkersStay(Apply(s, steps[0]), steps[1..]); }
  }

  /** Of `size` workers at most one is in `recv`, and a worker that runs a job does not hold the lock. */
  lemma LockDiscipline(size: nat, steps: seq<Step>)
    requires size > 0 && Exec(New(size), steps).Some?
    ensures var s := Exec(New(size), steps).value;
            && |s.workers| == size
            && (forall i, j :: 0 <= i < |s.workers| && 0 <= j < |s.workers| && s.workers[i].Holding? && s.workers[j].Holding? ==> i == j)
            && (forall i :: 0 <= i < |s.workers| && s.workers[i].Running? ==> s.holder != Some(i))
  {
    NewInv(size);
    WorkersStay(New(size), steps);
    ExecKeepsInv(New(size), steps);
  }

  /** When `drop` returns, every job given to `execute` has been taken and is done; none panicked, and none is anywhere else. */
  lemma DropReturnsAfterAllJobs(size: nat, steps: seq<Step>)
    requires size > 0 && Exec(New(size), steps).Some? && Exec(New(size), steps).value.owner == Returned
    ensures var s := Exec(New(size), steps).value;
            && s.taken == JobsIn(steps) && s.queue == [] && InFlight(s.workers) == multiset{}
            && s.crashed == multiset{} && s.done == multiset(JobsIn(steps))
  {
    NewInv(size);
    ExecKeepsInv(New(size), steps);
    SubmittedIsWhatWasGiven(New(size), steps);
    assert [] + JobsIn(steps) == JobsIn(steps);
    var s := Exec(New(size), steps).value;
    assert s.workers[0] == Exited;
    InFlightNone(s.workers);
    assert s.taken + [] == s.taken;
  }

  // ---------------------------------------------------------------- shutdown

  /** Once the sender is dropped, as long as a worker lives or the owner waits, some step is enabled. */
  lemma ShutdownProgress(s: Pool)
    requires Inv(s) && s.senderDropped
    requires !ReceiverGone(s) || s.owner.Joining?
    ensures exists step :: Enabled(s, step)
  {
    if !ReceiverGone(s) {
      var i :| 0 <= i < |s.workers| && !Ended(s.workers[i]);
      match s.workers[i]
      case Running(_) => assert Enabled(s, Finish(i));
      case Holding => assert Enabled(s, Recv(i));
      case Received(_) => assert Enabled(s, Unlock(i));
      case Waiting =>
        if s.holder == None {
          assert Enabled(s, Lock(i));
        } else {
          var h := s.holder.value;
          assert Enabled(s, if s.workers[h].Holding? then Recv(h) else Unlock(h));
        }
    } else {
      assert Enabled(s, Join);
    }
  }

  function PhaseWeight(p: Phase): nat {
    match p
    case Received(Some(_)) => 5
    case Running(_) => 4
    case Waiting => 3
    case Holding => 2
    case Received(None) => 1
    case Exited => 0
    case Panicked => 0
  }

  function Weights(ws: seq<Phase>): nat {
    if ws == [] then 0 else PhaseWeight(ws[0]) + Weights(ws[1..])
  }

  lemma {:induction false} WeightsUpdate(ws: seq<Phase>, i: nat, p: Phase)
    requires i < |ws|
    ensures Weights(ws[i := p]) + PhaseWeight(ws[i]) == Weights(ws) + PhaseWeight(p)
  {
    if i == 0 {
      assert ws[0 := p][1..] == ws[1..];
    } else {
      assert ws[i := p][1..] == ws[1..][i - 1 := p];
      WeightsUpdate(ws[1..], i - 1, p);
    }
  }

  function OwnerWeight(s: Pool): nat {
    match s.owner
    case Joining(n) => if n <= |s.workers| then |s.workers| - n + 1 else 0
    case _ => 0
  }

  function Measure(s: Pool): nat { 4 * |s.queue| + Weights(s.workers) + OwnerWeight(s) }

  /** Every step of the shutdown brings it nearer to its end, and the sender stays dropped. */
  lemma ShutdownDecreases(s: Pool, step: Step)
    requires StopInv(s) && s.senderDropped && Enabled(s, step)
    ensures Measure(Apply(s, step)) < Measure(s) && Apply(s, step).senderDropped
  {
    hide Weights, InFlight;
    match step
    case Lock(i) => WeightsUpdate(s.workers, i, Holding);
    case Recv(i) => WeightsUpdate(s.workers, i, if s.queue == [] then Received(None) else Received(Some(s.queue[0])));
    case Unlock(i) => WeightsUpdate(s.workers, i, if s.workers[i].message == None then Exited else Running(s.workers[i].message.value));
    case Finish(i) => WeightsUpdate(s.workers, i, if s.workers[i].job.panics then Panicked else Waiting);
    case _ =>
  }

  /** No run of the shutdown is longer than the measure at its start. */
  lemma {:induction false} ShutdownIsBounded(s: Pool, steps: seq<Step>)
    requires Inv(s) && s.senderDropped && Exec(s, steps).Some?
    ensures |steps| + Measure(Exec(s, steps).value) <= Measure(s) && Exec(s, steps).value.senderDropped
    decreases |steps|
  {
    hide StopInv, Conserved, LockInv, CrashInv, Measure;
    if steps != [] {
      ShutdownDecreases(s, steps[0]);
      StepKeepsInv(s, steps[0]);
      ShutdownIsBounded(Apply(s, steps[0]), steps[1..]);
    }
  }

  /**
   Where a run that dropped the sender can go no further, all workers have ended; `drop` has returned if no job
   panicked, and then every job is done.
   */
  lemma ShutdownEnds(size: nat, steps: seq<Step>)
    requires size > 0 && Exec(New(size), steps).Some?
    requires var s := Exec(New(size), steps).value; s.senderDropped && forall step :: !Enabled(s, step)
    ensures var s := Exec(New(size), steps).value;
            && ReceiverGone(s) && (s.owner == Returned || s.owner == Failed)
            && ((forall j :: j in JobsIn(steps) ==> !j.panics) ==> s.owner == Returned && s.done == multiset(JobsIn(steps)))
  {
    NewInv(size);
    ExecKeepsInv(New(size), steps);
    SubmittedIsWhatWasGiven(New(size), steps);
    assert [] + JobsIn(steps) == JobsIn(steps);
    var s := Exec(New(size), steps).value;
    if !ReceiverGone(s) || s.owner.Joining? { ShutdownProgress(s); }
    if forall j :: j in s.submitted ==> !j.panics {
      NothingCrashed(s);
      if s.owner == Returned { InFlightNone(s.workers); }
    }
  }

  lemma NothingCrashed(s: Pool)
    requires Inv(s) && forall j :: j in s.submitted ==> !j.panics
    ensures s.crashed == multiset{} && forall i :: 0 <= i < |s.workers| ==> s.workers[i] != Panicked
  {
    if s.crashed != multiset{} {
      var j :| j in s.crashed;
      CrashedWasSubmitted(s, j);
    }
  }

  lemma CrashedWasSubmitted(s: Pool, j: Job)
    requires Conserved(s) && j in s.crashed
    ensures j in s.submitted
  {
    assert multiset(s.taken)[j] > 0;
    assert j in s.taken;
  }
}
