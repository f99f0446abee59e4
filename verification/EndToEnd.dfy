/** From `trigger` to the sink: the outcomes a caller receives for a provider
    follow the jobs it triggered, in order, through the trigger ring, the worker,
    the result ring and the result lane. */
module EndToEnd {
  import opened Bytes
  import opened Worker
  import opened Ledger
  import opened System
  import Guarantees
  import Loops
  import Triggers

  /** A popped job, the time stamp of its pop and the bytes the source filled for it. */
  datatype Pop = Pop(job: Job, sent: nat, tx: seq<byte>)

  /** What a worker popped and tried to send. */
  function Pops(acts: seq<Act>): seq<Pop> {
    if acts == [] then [] else PopOf(acts[0]) + Pops(acts[1..])
  }

  function PopOf(a: Act): seq<Pop> {
    if a.DoSend? then [Pop(a.job, a.sent, a.tx)] else []
  }

  function JobsIn(pops: seq<Pop>): (r: seq<Job>)
    ensures |r| == |pops|
  {
    seq(|pops|, k requires 0 <= k < |pops| => pops[k].job)
  }

  /** Every send carries the job, the time stamp and the bytes of its pop. */
  ghost predicate PopsOk(b: Book, pops: seq<Pop>) {
    b.pops == |pops| && forall n :: 0 <= n < |b.sends| ==> FromPop(b.sends[n], pops)
  }

  predicate FromPop(r: SendRec, pops: seq<Pop>) {
    1 <= r.pop <= |pops| && Pop(r.job, r.sent, r.tx) == pops[r.pop - 1]
  }

  predicate OfLast(e: Effect, pops: seq<Pop>) {
    e.SentOn? ==> pops != [] && Pop(e.job, e.sent, e.tx) == pops[|pops| - 1]
  }

  lemma {:induction false} NotesPops(b: Book, fx: seq<Effect>, pops: seq<Pop>)
    requires PopsOk(b, pops) && forall e :: e in fx ==> OfLast(e, pops)
    ensures PopsOk(NoteAll(b, fx), pops)
    decreases |fx|
  {
    if fx != [] {
      assert fx[0] in fx;
      NotePops(b, fx[0], pops);
      NotesPops(Note(b, fx[0]), fx[1..], pops);
    }
  }

  lemma NotePops(b: Book, e: Effect, pops: seq<Pop>)
    requires PopsOk(b, pops) && OfLast(e, pops)
    ensures PopsOk(Note(b, e), pops)
  {
  }

  lemma SendsOwnPop(w: Par, a: Act, e: Effect)
    requires e in Step(w, a).1 && e.SentOn?
    ensures a.DoSend? && Pop(e.job, e.sent, e.tx) == Pop(a.job, a.sent, a.tx)
  {
  }

  lemma ActPops(w: Par, b: Book, a: Act, pops: seq<Pop>)
    requires PopsOk(b, pops)
    ensures PopsOk(After(w, b, a), pops + PopOf(a))
  {
    var pops' := pops + PopOf(a);
    var b1 := if a.DoSend? then b.(pops := b.pops + 1) else b;
    forall n | 0 <= n < |b.sends| ensures FromPop(b.sends[n], pops') {
      assert FromPop(b.sends[n], pops);
    }
    forall e | e in Step(w, a).1 ensures OfLast(e, pops') {
      if e.SentOn? { SendsOwnPop(w, a, e); }
    }
    NotesPops(b1, Step(w, a).1, pops');
  }

  lemma {:induction false} RunPops(s: Sys, steps: seq<SysStep>, i: nat, pops: seq<Pop>)
    requires Run(s, steps) && i < |s.provs| && PopsOk(s.provs[i].book, pops)
    ensures |Final(s, steps).provs| == |s.provs|
    ensures PopsOk(Final(s, steps).provs[i].book, pops + Pops(Loops.ActsOf(steps, i)))
    decreases |steps|
  {
    if steps == [] {
      assert pops + [] == pops;
    } else {
      var e, s1, rest := steps[0], Next(s, steps[0]), Loops.ActsOf(steps[1..], i);
      if e.Worker? && e.i == i {
        ActPops(s.provs[i].w, s.provs[i].book, e.act, pops);
        RunPops(s1, steps[1..], i, pops + PopOf(e.act));
        assert ([e.act] + rest)[1..] == rest;
        Assoc(pops, PopOf(e.act), Pops(rest));
      } else {
        OthersMove(s, e, i);
        RunPops(s1, steps[1..], i, pops);
        assert [] + rest == rest;
      }
    }
  }

  lemma {:induction false} ReachedPops(cfg: Config, steps: seq<SysStep>, s: Sys, i: nat)
    requires Guarantees.Reached(cfg, steps, s) && i < cfg.N()
    ensures i < |s.provs| && PopsOk(s.provs[i].book, Pops(Loops.ActsOf(steps, i)))
  {
    RunPops(Init(cfg), steps, i, []);
    assert [] + Pops(Loops.ActsOf(steps, i)) == Pops(Loops.ActsOf(steps, i));
  }

  // From the source to the wire

  /** What the source filled, turn by turn. */
  function Filled(turns: seq<Turn>): seq<Pop>
    requires forall k :: 0 <= k < |turns| ==> turns[k].Valid()
  {
    if turns == [] then [] else Filled(turns[..|turns| - 1]) + FillOf(turns[|turns| - 1])
  }

  function FillOf(t: Turn): seq<Pop>
    requires t.Valid()
  {
    if t.job.Some? then [Pop(t.job.value, t.sent, t.fill.data[..t.fill.len])] else []
  }

  lemma {:induction false} PopsConcat(a: seq<Act>, b: seq<Act>)
    ensures Pops(a + b) == Pops(a) + Pops(b)
    decreases |a|
  {
    if a == [] {
      assert a + b == b;
    } else {
      assert (a + b)[1..] == a[1..] + b && (a + b)[0] == a[0];
      PopsConcat(a[1..], b);
      Assoc(PopOf(a[0]), Pops(a[1..]), Pops(b));
    }
  }

  lemma {:induction false} NoPops(acts: seq<Act>)
    requires forall a :: a in acts ==> !a.DoSend?
    ensures Pops(acts) == []
    decreases |acts|
  {
    if acts != [] {
      assert acts[0] in acts;
      NoPops(acts[1..]);
    }
  }

  lemma SendPops(t: Turn)
    requires t.Valid()
    ensures Pops(SendActs(t)) == FillOf(t)
  {
    if t.job.Some? { assert SendActs(t)[1..] == []; }
  }

  lemma TurnPops(tick: nat, t: Turn)
    requires t.Valid()
    ensures Pops(TurnActs(tick, t)) == FillOf(t)
  {
    var rest := [DoReap(t.reply)] + HousekeepActs(tick, t);
    Assoc(SendActs(t), [DoReap(t.reply)], HousekeepActs(tick, t));
    PopsConcat(SendActs(t), rest);
    NoPops(rest);
    SendPops(t);
  }

  lemma {:induction false} LoopPops(w: Par, turns: seq<Turn>)
    requires forall k :: 0 <= k < |turns| ==> turns[k].Valid()
    ensures Pops(Loops.LoopActs(w, turns)) == Filled(turns)
    decreases |turns|
  {
    if turns != [] {
      var init, last := turns[..|turns| - 1], turns[|turns| - 1];
      var tick := RunTurns(w, init).0.tick;
      LoopPops(w, init);
      TurnPops(tick, last);
      PopsConcat(Loops.LoopActs(w, init), TurnActs(tick, last));
    }
  }

  /** Over every run in which worker i makes the moves of its loop, each frame it sent carries the job, the time
      stamp and exactly the bytes the source filled for that pop. */
  lemma {:induction false} SentBytesAreFilled(cfg: Config, steps: seq<SysStep>, s: Sys, i: nat, turns: seq<Turn>)
    requires Guarantees.Reached(cfg, steps, s) && i < cfg.N() && forall k :: 0 <= k < |turns| ==> turns[k].Valid()
    requires Loops.ActsOf(steps, i) == Loops.LoopActs(InitProv(cfg, i).w, turns)
    ensures i < |s.provs|
    ensures forall n :: 0 <= n < |s.provs[i].book.sends| ==> FromPop(s.provs[i].book.sends[n], Filled(turns))
  {
    ReachedPops(cfg, steps, s, i);
    LoopPops(InitProv(cfg, i).w, turns);
  }

  // From `trigger` to the sink

  /** The trigger that led to the outcome the sink received as number `k` from provider `i`. */
  ghost predicate LedTo(s: Sys, i: nat, k: nat, fan: Triggers.Fan, r: nat, x: nat)
    requires i < |s.provs| && k < |s.provs[i].book.kept| && r < |fan.took|
  {
    var n := Guarantees.SendOf(s, i, k);
    && n < |s.provs[i].book.sends|
    && 1 <= s.provs[i].book.sends[n].pop <= |fan.took[r]|
    && x == fan.took[r][s.provs[i].book.sends[n].pop - 1]
  }

  /** Ring `r` still holds or has given out what it took, and the worker sent no more than it was given. */
  ghost predicate Fed(s: Sys, i: nat, fan: Triggers.Fan, r: nat, pops: seq<Pop>)
    requires i < |s.provs|
  {
    && PopsOk(s.provs[i].book, pops)
    && r < |fan.rings| && r < |fan.took| && r < |fan.popped|
    && Triggers.RingHolds(fan, r) && JobsIn(pops) <= fan.popped[r]
  }

  lemma OneOutcome(s: Sys, i: nat, k: nat, fan: Triggers.Fan, r: nat, pops: seq<Pop>) returns (x: nat)
    requires i < |s.provs| && k < |s.provs[i].book.kept| && Fed(s, i, fan, r, pops)
    requires Guarantees.SendOf(s, i, k) < |s.provs[i].book.sends|
    ensures LedTo(s, i, k, fan, r, x) && x < |fan.triggered|
    ensures fan.triggered[x] == s.provs[i].book.sends[Guarantees.SendOf(s, i, k)].job
  {
    var rec := s.provs[i].book.sends[Guarantees.SendOf(s, i, k)];
    assert FromPop(rec, pops);
    var p := rec.pop - 1;
    var all := fan.popped[r] + fan.rings[r];
    assert pops[p].job == JobsIn(pops)[p] == fan.popped[r][p] == all[p];
    x := fan.took[r][p];
  }

  /** The triggers behind the first `m` responses the ring took. */
  lemma {:induction false} Indices(s: Sys, i: nat, m: nat, fan: Triggers.Fan, r: nat, pops: seq<Pop>)
    returns (idx: seq<nat>)
    requires i < |s.provs| && m <= |s.provs[i].book.kept| && Fed(s, i, fan, r, pops)
    requires forall k :: 0 <= k < m ==> Guarantees.SendOf(s, i, k) < |s.provs[i].book.sends|
    ensures |idx| == m && forall k :: 0 <= k < m ==>
              && LedTo(s, i, k, fan, r, idx[k]) && idx[k] < |fan.triggered|
              && fan.triggered[idx[k]] == s.provs[i].book.sends[Guarantees.SendOf(s, i, k)].job
    decreases m
  {
    if m == 0 {
      idx := [];
    } else {
      var front := Indices(s, i, m - 1, fan, r, pops);
      var x := OneOutcome(s, i, m - 1, fan, r, pops);
      idx := front + [x];
    }
  }

  /**
    Whatever the interleaving on either side: if the jobs worker i sends are those
    it popped from ring r, what the sink receives under number i names jobs that
    were triggered, each at most once and in trigger order.
   */
  lemma OutcomesFollowTriggers(cfg: Config, steps: seq<SysStep>, s: Sys, i: nat,
                               n: nat, calls: seq<Triggers.FanStep>, fan: Triggers.Fan, r: nat)
    returns (idx: seq<nat>)
    requires Guarantees.Reached(cfg, steps, s) && i < cfg.N() <= U16
    requires Triggers.FanRun(Triggers.FanInit(n, Triggers.TRIGGER_RING), calls, fan) && r < n && r < |fan.popped|
    requires JobsIn(Pops(Loops.ActsOf(steps, i))) <= fan.popped[r]
    ensures |idx| == |Guarantees.FromProvider(s.sink, i)|
    ensures Triggers.Increasing(idx) && Triggers.Below(idx, |fan.triggered|)
    ensures forall k :: 0 <= k < |idx| ==>
              Guarantees.FromProvider(s.sink, i)[k].job == fan.triggered[idx[k]].id
  {
    Guarantees.OutcomesFollowSends(cfg, steps, s, i);
    Guarantees.SinkSeparatesProviders(cfg, steps, s, i);
    Triggers.FanOut(n, calls, fan);
    var pops := Pops(Loops.ActsOf(steps, i));
    ReachedPops(cfg, steps, s, i);
    idx := Indices(s, i, |s.provs[i].received|, fan, r, pops);
    forall a, b | 0 <= a < b < |idx| ensures idx[a] < idx[b] {
      assert LedTo(s, i, a, fan, r, idx[a]) && LedTo(s, i, b, fan, r, idx[b]);
    }
  }
}
