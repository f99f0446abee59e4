/** The trigger path: bounded single-producer rings (rt/spsc.rs), `trigger`
    over one ring or one ring per worker (transport/builder.rs), and what every
    interleaving of pushes and pops leaves in the rings. */
module Triggers {
  import opened Bytes
  import opened Worker

  const TRIGGER_RING: nat := 256

  class Spsc {
    const capacity: nat
    var items: seq<Job>
    var counter: nat   // the notify counter, a 64-bit word

    ghost predicate Valid()
      reads this
    {
      |items| <= capacity && counter < U64
    }

    constructor (capacity: nat)
      ensures Valid() && this.capacity == capacity && items == []
    {
      this.capacity := capacity;
      items, counter := [], 0;
    }

    /** Push, then notify. A refused job leaves no trace. */
    method TryPush(job: Job) returns (ok: bool)
      requires Valid()
      modifies this
      ensures Valid()
      ensures ok <==> old(|items|) < capacity
      ensures items == if ok then old(items) + [job] else old(items)
      ensures counter == if ok then (old(counter) + 1) % U64 else old(counter)
    {
      if |items| < capacity {
        items := items + [job];
        counter := (counter + 1) % U64;
        ok := true;
      } else {
        ok := false;
      }
    }

    method TryPop() returns (job: Option<Job>)
      requires Valid()
      modifies `items
      ensures Valid()
      ensures job.None? <==> old(items) == []
      ensures old(items) == (if job.Some? then [job.value] else []) + items
    {
      if items == [] { return None; }
      job := Some(items[0]);
      items := items[1..];
    }
  }

  class Sender {
    /** One ring for the sequential worker (`Single`), one per provider for the parallel ones (`Fanout`). */
    const single: bool
    const rings: seq<Spsc>

    ghost predicate Valid()
      reads this, rings
    {
      && (single ==> |rings| == 1)
      && (forall i, j :: 0 <= i < j < |rings| ==> rings[i] != rings[j])
      && forall i :: 0 <= i < |rings| ==> rings[i].Valid()
    }

    constructor (single: bool, rings: seq<Spsc>)
      requires single ==> |rings| == 1
      requires forall i, j :: 0 <= i < j < |rings| ==> rings[i] != rings[j]
      requires forall i :: 0 <= i < |rings| ==> rings[i].Valid()
      ensures Valid() && this.single == single && this.rings == rings
    {
      this.single, this.rings := single, rings;
    }

    /** Ok exactly when every ring had room; otherwise the job is in exactly the rings that had. */
    method Trigger(job: Job) returns (ok: bool)
      requires Valid()
      modifies rings
      ensures Valid()
      ensures ok <==> forall i :: 0 <= i < |rings| ==> |old(rings[i].items)| < rings[i].capacity
      ensures forall i :: 0 <= i < |rings| ==>
                rings[i].items == old(rings[i].items) + if |old(rings[i].items)| < rings[i].capacity then [job] else []
    {
      if single {
        ok := rings[0].TryPush(job);
      } else {
        ok := true;
        for i := 0 to |rings|
          invariant Valid()
          invariant ok <==> forall j :: 0 <= j < i ==> |old(rings[j].items)| < rings[j].capacity
          invariant forall j :: 0 <= j < i ==>
                      rings[j].items
                      == old(rings[j].items) + if |old(rings[j].items)| < rings[j].capacity then [job] else []
          invariant forall j :: i <= j < |rings| ==> rings[j].items == old(rings[j].items)
        {
          var pushed := rings[i].TryPush(job);
          if !pushed { ok := false; }
        }
      }
    }
  }

  // Every interleaving

  /** A `trigger` call under way: it has tried the rings below `next`. */
  datatype Call = Call(job: Job, next: nat, ok: bool)

  datatype Fan = Fan(
    capacity: nat,
    rings: seq<seq<Job>>,
    call: Option<Call>,
    triggered: seq<Job>,      // the jobs of all calls, in order
    results: seq<bool>,       // what the finished calls returned
    took: seq<seq<nat>>,      // per ring, which calls it took
    popped: seq<seq<Job>>)    // per ring, what its worker popped

  datatype FanStep = Begin(job: Job) | Push | Return | Pop(i: nat)

  predicate FanEnabled(s: Fan, e: FanStep) {
    match e
    case Begin(_) => s.call.None?
    case Push => s.call.Some? && s.call.value.next < |s.rings| && s.call.value.next < |s.took| && s.triggered != []
    case Return => s.call.Some? && s.call.value.next >= |s.rings|
    case Pop(i) => i < |s.rings| && i < |s.popped| && s.rings[i] != []
  }

  function FanNext(s: Fan, e: FanStep): Fan
    requires FanEnabled(s, e)
  {
    match e
    case Begin(job) => s.(call := Some(Call(job, 0, true)), triggered := s.triggered + [job])
    case Push =>
      var c := s.call.value;
      var i := c.next;
      if |s.rings[i]| < s.capacity
      then s.(rings := s.rings[i := s.rings[i] + [c.job]], call := Some(c.(next := i + 1)),
              took := s.took[i := s.took[i] + [|s.triggered| - 1]])
      else s.(call := Some(Call(c.job, i + 1, false)))
    case Return => s.(call := None, results := s.results + [s.call.value.ok])
    case Pop(i) => s.(rings := s.rings[i := s.rings[i][1..]], popped := s.popped[i := s.popped[i] + [s.rings[i][0]]])
  }

  function FanInit(n: nat, capacity: nat): Fan {
    Fan(capacity, seq(n, _ => []), None, [], [], seq(n, _ => []), seq(n, _ => []))
  }

  ghost predicate FanRun(s: Fan, steps: seq<FanStep>, t: Fan)
    decreases |steps|
  {
    if steps == [] then s == t else FanEnabled(s, steps[0]) && FanRun(FanNext(s, steps[0]), steps[1..], t)
  }

  predicate Below(ks: seq<nat>, n: nat) { forall j :: 0 <= j < |ks| ==> ks[j] < n }

  /** The jobs of the calls named by `ks`. */
  function JobsOf(triggered: seq<Job>, ks: seq<nat>): (r: seq<Job>)
    requires Below(ks, |triggered|)
    ensures |r| == |ks| && forall j :: 0 <= j < |ks| ==> r[j] == triggered[ks[j]]
  {
    seq(|ks|, j requires 0 <= j < |ks| => triggered[ks[j]])
  }

  predicate Increasing(ks: seq<nat>) { forall a, b :: 0 <= a < b < |ks| ==> ks[a] < ks[b] }

  /** Ring `i` and its worker hold exactly the jobs it took, in call order. */
  ghost predicate RingHolds(s: Fan, i: nat)
    requires i < |s.rings| && i < |s.took| && i < |s.popped|
  {
    && |s.rings[i]| <= s.capacity
    && Increasing(s.took[i])
    && Below(s.took[i], |s.triggered|)
    && s.popped[i] + s.rings[i] == JobsOf(s.triggered, s.took[i])
  }

  /** A call has succeeded so far exactly when the rings tried so far took it. */
  ghost predicate CallOk(s: Fan, c: Call) {
    && c.next <= |s.rings| && |s.triggered| == |s.results| + 1 && s.triggered[|s.results|] == c.job
    && |s.took| == |s.rings|
    && (c.ok <==> forall i :: 0 <= i < c.next ==> |s.results| in s.took[i])
    && forall i :: c.next <= i < |s.rings| ==> |s.results| !in s.took[i]
  }

  ghost predicate FanOk(s: Fan) {
    && |s.took| == |s.popped| == |s.rings|
    && (forall i :: 0 <= i < |s.rings| ==> RingHolds(s, i))
    && (if s.call.Some? then CallOk(s, s.call.value) else |s.triggered| == |s.results|)
    && forall k :: 0 <= k < |s.results| ==> s.results[k] == TakenByAll(s, k)
  }

  predicate TakenByAll(s: Fan, k: nat) { forall i :: 0 <= i < |s.took| ==> k in s.took[i] }

  lemma JobsOfGrows(triggered: seq<Job>, more: seq<Job>, ks: seq<nat>)
    requires Below(ks, |triggered|)
    ensures JobsOf(triggered + more, ks) == JobsOf(triggered, ks)
  {
  }

  lemma JobsOfSnoc(triggered: seq<Job>, ks: seq<nat>, k: nat)
    requires Below(ks, |triggered|) && k < |triggered|
    ensures JobsOf(triggered, ks + [k]) == JobsOf(triggered, ks) + [triggered[k]]
  {
  }

  lemma BeginKeeps(s: Fan, job: Job)
    requires FanOk(s) && s.call.None?
    ensures FanOk(FanNext(s, Begin(job)))
  {
    var t := FanNext(s, Begin(job));
    forall i | 0 <= i < |s.rings| ensures RingHolds(t, i) {
      assert RingHolds(s, i);
      JobsOfGrows(s.triggered, [job], s.took[i]);
    }
    forall i | 0 <= i < |s.rings| ensures |s.results| !in t.took[i] {
      assert RingHolds(s, i);
    }
  }

  lemma PushKeepsRing(s: Fan, i: nat)
    requires FanOk(s) && FanEnabled(s, Push) && i < |s.rings|
    ensures RingHolds(FanNext(s, Push), i)
  {
    var t, c := FanNext(s, Push), s.call.value;
    assert RingHolds(s, i);
    if i == c.next && |s.rings[i]| < s.capacity {
      JobsOfSnoc(s.triggered, s.took[i], |s.results|);
      assert t.popped[i] + t.rings[i] == s.popped[i] + s.rings[i] + [c.job];
    }
  }

  lemma PushKeeps(s: Fan)
    requires FanOk(s) && FanEnabled(s, Push)
    ensures FanOk(FanNext(s, Push))
  {
    var t, c := FanNext(s, Push), s.call.value;
    forall i | 0 <= i < |s.rings| ensures RingHolds(t, i) {
      PushKeepsRing(s, i);
    }
    forall i, k | 0 <= i < |s.rings| && (k < |s.results| || i != c.next) ensures k in t.took[i] <==> k in s.took[i] {
    }
    assert |s.rings[c.next]| < s.capacity <==> |s.results| in t.took[c.next];
  }

  lemma PopKeeps(s: Fan, i: nat)
    requires FanOk(s) && FanEnabled(s, Pop(i))
    ensures FanOk(FanNext(s, Pop(i)))
  {
    var t := FanNext(s, Pop(i));
    forall j | 0 <= j < |s.rings| ensures RingHolds(t, j) {
      assert RingHolds(s, j);
      if j == i {
        assert t.popped[i] + t.rings[i] == s.popped[i] + s.rings[i];
      }
    }
  }

  lemma ReturnKeeps(s: Fan)
    requires FanOk(s) && FanEnabled(s, Return)
    ensures FanOk(FanNext(s, Return))
  {
    var t := FanNext(s, Return);
    forall i | 0 <= i < |s.rings| ensures RingHolds(t, i) {
      assert RingHolds(s, i);
    }
  }

  lemma FanStepKeeps(s: Fan, e: FanStep)
    requires FanOk(s) && FanEnabled(s, e)
    ensures FanOk(FanNext(s, e)) && FanNext(s, e).capacity == s.capacity && |FanNext(s, e).rings| == |s.rings|
  {
    match e
    case Begin(job) => BeginKeeps(s, job);
    case Push => PushKeeps(s);
    case Return => ReturnKeeps(s);
    case Pop(i) => PopKeeps(s, i);
  }

  lemma {:induction false} FanRunKeeps(s: Fan, steps: seq<FanStep>, t: Fan)
    requires FanOk(s) && FanRun(s, steps, t)
    ensures FanOk(t) && t.capacity == s.capacity && |t.rings| == |s.rings|
    decreases |steps|
  {
    if steps != [] {
      FanStepKeeps(s, steps[0]);
      FanRunKeeps(FanNext(s, steps[0]), steps[1..], t);
    }
  }

  lemma {:induction false} FanInitRunOk(n: nat, steps: seq<FanStep>, t: Fan)
    requires FanRun(FanInit(n, TRIGGER_RING), steps, t)
    ensures FanOk(t) && t.capacity == TRIGGER_RING && |t.rings| == n
  {
    var s := FanInit(n, TRIGGER_RING);
    forall i | 0 <= i < n ensures RingHolds(s, i) {
      assert JobsOf([], []) == [];
    }
    FanRunKeeps(s, steps, t);
  }

  /** Over every interleaving of `n` rings: each ring holds the jobs it took and has not given out, in call
      order, and a call returned Ok exactly when every ring took its job. */
  lemma {:induction false} FanOut(n: nat, steps: seq<FanStep>, t: Fan)
    requires FanRun(FanInit(n, TRIGGER_RING), steps, t)
    ensures |t.rings| == |t.took| == |t.popped| == n
    ensures forall i :: 0 <= i < n ==> RingHolds(t, i) && |t.rings[i]| <= TRIGGER_RING
    ensures |t.results| <= |t.triggered|
    ensures forall k :: 0 <= k < |t.results| ==> (t.results[k] <==> TakenByAll(t, k))
  {
    FanInitRunOk(n, steps, t);
  }

  lemma Bounded(ks: seq<nat>, n: nat)
    requires |ks| > 0 && Below(ks, n)
    ensures n > 0
  {
    assert ks[0] < n;
  }

  lemma {:induction false} TookAll(ks: seq<nat>, n: nat)
    requires Increasing(ks) && Below(ks, n) && forall k :: 0 <= k < n ==> k in ks
    ensures ks == seq(n, k => k)
    decreases n
  {
    if |ks| > 0 { Bounded(ks, n); }
    if n > 0 {
      var m := |ks| - 1;
      assert n - 1 in ks;
      var a :| 0 <= a < |ks| && ks[a] == n - 1;
      assert ks[a] <= ks[m] < n;
      var front := ks[..m];
      forall b | 0 <= b < m ensures front[b] < n - 1 {
        assert ks[b] < ks[m];
      }
      forall k: nat | k < n - 1 ensures k in front {
        assert k in ks;
        var b :| 0 <= b < |ks| && ks[b] == k;
        assert front[b] == k;
      }
      TookAll(front, n - 1);
      assert ks == front + [n - 1];
    }
  }

  /** While no call was refused, every worker sees every job, in the same order. */
  lemma {:induction false} WorkersSeeTheSameJobs(n: nat, steps: seq<FanStep>, t: Fan, i: nat)
    requires FanRun(FanInit(n, TRIGGER_RING), steps, t) && i < n
    requires t.call.None? && forall k :: 0 <= k < |t.results| ==> t.results[k]
    ensures |t.popped| == |t.rings| == n && t.popped[i] + t.rings[i] == t.triggered
  {
    FanInitRunOk(n, steps, t);
    assert RingHolds(t, i);
    forall k: nat | k < |t.triggered| ensures k in t.took[i] {
      assert t.results[k];
    }
    TookAll(t.took[i], |t.triggered|);
    assert JobsOf(t.triggered, t.took[i]) == t.triggered;
  }
}
