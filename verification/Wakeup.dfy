/** Idling on a trigger ring: the producer pushes and then bumps the notify
    counter (rt/spsc.rs); the worker that found its ring empty arms a monitor
    on that counter, looks again and only then waits (rt/wait.rs). */
module Wakeup {
  import opened Worker

  datatype ProducerAt = Ready | BeforeNotify

  /** Where the worker is: working, having found the ring empty, with its monitor armed, or waiting. */
  datatype WorkerAt = Working | BeforeArm | BeforeRecheck | Waiting

  datatype Idle = Idle(
    capacity: nat,
    ring: seq<Job>,
    producer: ProducerAt,
    worker: WorkerAt,
    armed: bool,       // the monitor watches the counter
    stored: bool,      // and a store to the counter has hit it since
    counter: nat,
    pushed: seq<Job>,
    popped: seq<Job>)

  datatype IdleStep =
    | Push(job: Job)
    | Notify
    | Pop
    | FindEmpty
    | Arm
    | Recheck(stop: bool)
    | Wake             // by a store, a timeout or an interrupt

  predicate Enabled(s: Idle, e: IdleStep) {
    match e
    case Push(_) => s.producer.Ready? && |s.ring| < s.capacity
    case Notify => s.producer.BeforeNotify?
    case Pop => s.worker.Working? && s.ring != []
    case FindEmpty => s.worker.Working? && s.ring == []
    case Arm => s.worker.BeforeArm?
    case Recheck(_) => s.worker.BeforeRecheck?
    case Wake => s.worker.Waiting?
  }

  function Next(s: Idle, e: IdleStep): Idle
    requires Enabled(s, e)
  {
    match e
    case Push(job) => s.(ring := s.ring + [job], pushed := s.pushed + [job], producer := BeforeNotify)
    case Notify => s.(counter := s.counter + 1, stored := s.stored || s.armed, producer := Ready)
    case Pop => s.(ring := s.ring[1..], popped := s.popped + [s.ring[0]])
    case FindEmpty => s.(worker := BeforeArm)
    case Arm => s.(armed := true, stored := false, worker := BeforeRecheck)
    case Recheck(stop) => s.(worker := if s.ring == [] && !stop then Waiting else Working)
    case Wake => s.(worker := Working, armed := false)
  }

  function Init(capacity: nat): Idle { Idle(capacity, [], Ready, Working, false, false, 0, [], []) }

  ghost predicate Run(s: Idle, steps: seq<IdleStep>, t: Idle)
    decreases |steps|
  {
    if steps == [] then s == t else Enabled(s, steps[0]) && Run(Next(s, steps[0]), steps[1..], t)
  }

  /** While the worker waits unalerted, at most the job of a push still to be announced is in the ring. */
  ghost predicate Inv(s: Idle) {
    && s.popped + s.ring == s.pushed && |s.ring| <= s.capacity
    && s.counter + (if s.producer.BeforeNotify? then 1 else 0) == |s.pushed|
    && (s.worker.BeforeRecheck? || s.worker.Waiting? ==> s.armed)
    && (s.worker.Waiting? && !s.stored ==> |s.ring| <= 1)
    && (s.worker.Waiting? && !s.stored && s.ring != [] ==> s.producer.BeforeNotify?)
  }

  lemma StepKeeps(s: Idle, e: IdleStep)
    requires Inv(s) && Enabled(s, e)
    ensures Inv(Next(s, e))
  {
    if e.Pop? {
      assert s.popped + [s.ring[0]] + s.ring[1..] == s.popped + s.ring;
    } else if e.Push? {
      assert s.popped + (s.ring + [e.job]) == s.popped + s.ring + [e.job];
    }
  }

  lemma {:induction false} RunKeeps(s: Idle, steps: seq<IdleStep>, t: Idle)
    requires Inv(s) && Run(s, steps, t)
    ensures Inv(t) && t.capacity == s.capacity
    decreases |steps|
  {
    if steps != [] {
      StepKeeps(s, steps[0]);
      RunKeeps(Next(s, steps[0]), steps[1..], t);
    }
  }

  /** No lost wake-up: a worker waiting over a non-empty ring has been stored to, or its producer has yet to
      notify; then that one job is all it is missing, and the notify hits its monitor. */
  lemma {:induction false} NoLostWakeup(capacity: nat, steps: seq<IdleStep>, t: Idle)
    requires Run(Init(capacity), steps, t) && t.worker.Waiting? && t.ring != []
    ensures t.stored || t.producer.BeforeNotify?
    ensures !t.stored ==> |t.ring| == 1 && Enabled(t, Notify) && Next(t, Notify).stored
  {
    RunKeeps(Init(capacity), steps, t);
  }

  /** The worker pops exactly what was pushed, in order, and every push but one under way was announced. */
  lemma {:induction false} PopsFollowPushes(capacity: nat, steps: seq<IdleStep>, t: Idle)
    requires Run(Init(capacity), steps, t)
    ensures t.popped + t.ring == t.pushed && |t.ring| <= capacity
    ensures t.counter <= |t.pushed| <= t.counter + 1
  {
    RunKeeps(Init(capacity), steps, t);
  }

  /** Looking again after arming is what makes this work: a worker that went from the first look straight to
      waiting could sleep over a job whose notify came before it armed. */
  lemma RecheckIsNeeded(job: Job)
    ensures var found := Next(Init(1), FindEmpty);
            var missed := Next(Next(Next(found, Push(job)), Notify), Arm);
            && missed.ring == [job] && missed.producer.Ready? && !missed.stored
            && Next(missed, Recheck(false)).worker.Working?
  {
    assert [] + [job] == [job];
  }
}
