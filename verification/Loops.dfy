/** The worker loops and the state machine of module System: every run of the
    system whose moves of a worker are those of its loop leaves that worker, its
    sends and its responses where the loop leaves them; and any interleaving of
    loops whose answers are allowed is a run of the system. */
module Loops {
  import opened Bytes
  import opened Worker
  import opened Moves
  import opened Ledger
  import opened System
  import opened Sequential

  // Loops as acts

  /** The acts of the loop over `turns`, started by worker `w`. */
  function LoopActs(w: Par, turns: seq<Turn>): seq<Act>
    requires forall k :: 0 <= k < |turns| ==> turns[k].Valid()
  {
    if turns == [] then []
    else
      var init := turns[..|turns| - 1];
      LoopActs(w, init) + TurnActs(RunTurns(w, init).0.tick, turns[|turns| - 1])
  }

  lemma {:induction false} LoopIsSteps(w: Par, turns: seq<Turn>)
    requires forall k :: 0 <= k < |turns| ==> turns[k].Valid()
    ensures Steps(w, LoopActs(w, turns)).0 == RunTurns(w, turns).0
    ensures Steps(w, LoopActs(w, turns)).1 == RunTurns(w, turns).1
    decreases |turns|
  {
    if turns != [] {
      var init, last := turns[..|turns| - 1], turns[|turns| - 1];
      var w1 := RunTurns(w, init).0;
      LoopIsSteps(w, init);
      TurnIsSteps(w1, last);
      StepsConcat(w, LoopActs(w, init), TurnActs(w1.tick, last));
    }
  }

  // What a run shows of one worker

  /** The acts of provider `i`'s worker in a run. */
  function ActsOf(steps: seq<SysStep>, i: nat): seq<Act> {
    if steps == [] then []
    else (if steps[0].Worker? && steps[0].i == i then [steps[0].act] else []) + ActsOf(steps[1..], i)
  }

  /** The frames the book has on record: connection, job, time stamp, clock and bytes. */
  function FramesOn(sends: seq<SendRec>): (r: seq<Effect>)
    ensures |r| == |sends|
  {
    seq(|sends|, k requires 0 <= k < |sends| =>
          SentOn(sends[k].conn, sends[k].job, sends[k].sent, sends[k].at, sends[k].tx))
  }

  function Responses(pushes: seq<PushRec>): (r: seq<RawResp>)
    ensures |r| == |pushes|
  {
    seq(|pushes|, k requires 0 <= k < |pushes| => pushes[k].resp)
  }

  /** The book's records of sends and responses grow by what the effects report. */
  predicate Recorded(b: Book, fx: seq<Effect>, b': Book) {
    && FramesOn(b'.sends) == FramesOn(b.sends) + Frames(fx)
    && Responses(b'.pushes) == Responses(b.pushes) + Reports(fx)
  }

  lemma NoteRecords(b: Book, e: Effect)
    requires e.Pushed? ==> (if b.protocol.HttpProtocol? then b.cur.Some? else e.tag in b.quic)
    ensures Recorded(b, [e], Note(b, e))
  {
    FiltersOne(e);
  }

  lemma RecordedThen(b: Book, xs: seq<Effect>, b1: Book, ys: seq<Effect>, b2: Book)
    requires Recorded(b, xs, b1) && Recorded(b1, ys, b2)
    ensures Recorded(b, xs + ys, b2)
  {
    FiltersConcat(xs, ys);
  }

  lemma {:induction false} QuietNotesRecord(b: Book, fx: seq<Effect>)
    requires forall e :: e in fx ==> !e.Pushed?
    ensures Recorded(b, fx, NoteAll(b, fx))
    decreases |fx|
  {
    if fx != [] {
      assert fx[0] in fx;
      NoteRecords(b, fx[0]);
      QuietNotesRecord(Note(b, fx[0]), fx[1..]);
      RecordedThen(b, [fx[0]], Note(b, fx[0]), fx[1..], NoteAll(b, fx));
      assert [fx[0]] + fx[1..] == fx;
    }
  }

  /** A response is pushed last, and the book knows the send it names. */
  lemma PushIsLast(w: Par, b: Book, a: Act, e: Effect)
    requires BookOk(w, b) && e in Step(w, a).1 && e.Pushed?
    ensures a.DoReap? && var fx := Step(w, a).1;
            && fx[|fx| - 1] == e && (forall x :: x in fx[..|fx| - 1] ==> x.Answered?)
            && (if b.protocol.HttpProtocol? then b.cur.Some? else e.tag in b.quic)
  {
  }

  lemma {:induction false} PushRecords(b: Book, init: seq<Effect>, e: Effect)
    requires (forall x :: x in init ==> x.Answered?) && e.Pushed?
    requires if b.protocol.HttpProtocol? then b.cur.Some? else e.tag in b.quic
    ensures Recorded(b, init + [e], NoteAll(b, init + [e]))
  {
    var b1 := NoteAll(b, init);
    QuietNotesRecord(b, init);
    AnswersKeepPlace(b, init);
    NoteConcat(b, init, [e]);
    NoteOne(b1, e);
    NoteRecords(b1, e);
    RecordedThen(b, init, b1, [e], Note(b1, e));
  }

  lemma ActRecords(w: Par, b: Book, a: Act)
    requires BookOk(w, b)
    ensures Recorded(b, Step(w, a).1, After(w, b, a))
  {
    var fx := Step(w, a).1;
    if e :| e in fx && e.Pushed? {
      PushIsLast(w, b, a, e);
      assert fx == fx[..|fx| - 1] + [e];
      PushRecords(b, fx[..|fx| - 1], e);
    } else {
      QuietNotesRecord(if a.DoSend? then b.(pops := b.pops + 1) else b, fx);
    }
  }

  lemma {:induction false} AnswersKeepPlace(b: Book, fx: seq<Effect>)
    requires forall e :: e in fx ==> e.Answered?
    ensures var b' := NoteAll(b, fx); b'.cur == b.cur && b'.quic == b.quic && b'.protocol == b.protocol
    decreases |fx|
  {
    if fx != [] {
      assert fx[0] in fx;
      AnswersKeepPlace(Note(b, fx[0]), fx[1..]);
    }
  }

  lemma {:induction false} ProjectsOwn(p: Prov, a: Act, rest: seq<Act>, b: Book)
    requires BookOk(p.w, p.book)
    requires Recorded(Moved(p, a).book, Steps(Moved(p, a).w, rest).1, b)
    ensures Steps(p.w, [a] + rest).0 == Steps(Moved(p, a).w, rest).0
    ensures Recorded(p.book, Steps(p.w, [a] + rest).1, b)
  {
    assert ([a] + rest)[1..] == rest;
    ActRecords(p.w, p.book, a);
    RecordedThen(p.book, Step(p.w, a).1, Moved(p, a).book, Steps(Moved(p, a).w, rest).1, b);
  }

  lemma RecordedFrom(b: Book, b1: Book, fx: seq<Effect>, b2: Book)
    requires b1.sends == b.sends && b1.pushes == b.pushes && Recorded(b1, fx, b2)
    ensures Recorded(b, fx, b2)
  {
  }

  /** In every run a worker is where its own acts take it, and the book records what those acts report. */
  lemma {:induction false} RunProjects(s: Sys, steps: seq<SysStep>, i: nat)
    requires SysOk(s) && Run(s, steps) && i < |s.provs|
    ensures |Final(s, steps).provs| == |s.provs|
    ensures Final(s, steps).provs[i].w == Steps(s.provs[i].w, ActsOf(steps, i)).0
    ensures Recorded(s.provs[i].book, Steps(s.provs[i].w, ActsOf(steps, i)).1, Final(s, steps).provs[i].book)
    decreases |steps|
  {
    if steps != [] {
      var e, s1 := steps[0], Next(s, steps[0]);
      StepKeeps(s, e);
      var rest := ActsOf(steps[1..], i);
      if e.Worker? && e.i == i {
        assert ProvOk(s.provs[i], i, s.cfg, s.serial);
        RunProjects(s1, steps[1..], i);
        ProjectsOwn(s.provs[i], e.act, rest, Final(s, steps).provs[i].book);
      } else {
        OthersMove(s, e, i);
        RunProjects(s1, steps[1..], i);
        assert [] + rest == rest;
        RecordedFrom(s.provs[i].book, s1.provs[i].book, Steps(s.provs[i].w, rest).1, Final(s, steps).provs[i].book);
      }
    }
  }

  /**
    Over every run of the system in which the moves of worker i are those of its
    loop over some turns, the loop's result is the system's: the worker's state,
    the jobs sent and the responses built, whatever the other threads do.
   */
  lemma {:induction false} RunFollowsLoop(s: Sys, steps: seq<SysStep>, i: nat, turns: seq<Turn>)
    requires SysOk(s) && Run(s, steps) && i < |s.provs| && forall k :: 0 <= k < |turns| ==> turns[k].Valid()
    requires ActsOf(steps, i) == LoopActs(s.provs[i].w, turns)
    ensures |Final(s, steps).provs| == |s.provs|
    ensures Final(s, steps).provs[i].w == RunTurns(s.provs[i].w, turns).0
    ensures Recorded(s.provs[i].book, RunTurns(s.provs[i].w, turns).1, Final(s, steps).provs[i].book)
  {
    RunProjects(s, steps, i);
    LoopIsSteps(s.provs[i].w, turns);
  }

  // Loops make runs

  /** Each answer is one the environment may give at that point, and deliveries come from the channel. */
  ghost predicate Fits(p: Prov, acts: seq<Act>)
    decreases |acts|
  {
    acts == [] || (AnswersFit(p, acts[0]) && Fits(Moved(p, acts[0]), acts[1..]))
  }

  /** Steps of workers, in any order, are a run exactly when each worker's acts fit its provider. */
  lemma {:induction false} AnyInterleavingRuns(s: Sys, steps: seq<SysStep>)
    requires forall e :: e in steps ==> e.Worker? && e.i < |s.provs|
    ensures Run(s, steps) <==> forall i :: 0 <= i < |s.provs| ==> Fits(s.provs[i], ActsOf(steps, i))
    decreases |steps|
  {
    if steps == [] {
      assert forall i :: 0 <= i < |s.provs| ==> Fits(s.provs[i], []);
    } else {
      var e, rest := steps[0], steps[1..];
      assert e in steps;
      forall i | 0 <= i < |s.provs| ensures ActsOf(steps, i) == (if i == e.i then [e.act] else []) + ActsOf(rest, i) {}
      assert ([e.act] + ActsOf(rest, e.i))[1..] == ActsOf(rest, e.i);
      if AnswersFit(s.provs[e.i], e.act) {
        var s1 := Next(s, e);
        AnyInterleavingRuns(s1, rest);
        forall i | 0 <= i < |s.provs|
          ensures Fits(s.provs[i], ActsOf(steps, i)) <==> Fits(s1.provs[i], ActsOf(rest, i))
        {
          if i != e.i { assert [] + ActsOf(rest, i) == ActsOf(rest, i); }
        }
      } else {
        assert !Fits(s.provs[e.i], ActsOf(steps, e.i));
      }
    }
  }

  lemma {:induction false} RunLength(s: Sys, steps: seq<SysStep>)
    requires Run(s, steps)
    ensures |Final(s, steps).provs| == |s.provs|
    decreases |steps|
  {
    if steps != [] { RunLength(Next(s, steps[0]), steps[1..]); }
  }

  lemma {:induction false} ActsOfConcat(a: seq<SysStep>, b: seq<SysStep>, i: nat)
    ensures ActsOf(a + b, i) == ActsOf(a, i) + ActsOf(b, i)
    decreases |a|
  {
    if a == [] {
      assert a + b == b;
    } else {
      assert (a + b)[1..] == a[1..] + b && (a + b)[0] == a[0];
      ActsOfConcat(a[1..], b, i);
      Assoc(if a[0].Worker? && a[0].i == i then [a[0].act] else [], ActsOf(a[1..], i), ActsOf(b, i));
    }
  }

  // The parallel worker's own order

  function Alone(i: nat, acts: seq<Act>): (r: seq<SysStep>)
    ensures |r| == |acts| && forall e :: e in r ==> e.Worker? && e.i == i
  {
    seq(|acts|, k requires 0 <= k < |acts| => SysStep.Worker(i, acts[k]))
  }

  lemma {:induction false} AloneActs(i: nat, acts: seq<Act>, j: nat)
    ensures ActsOf(Alone(i, acts), j) == if i == j then acts else []
    decreases |acts|
  {
    if acts != [] {
      assert Alone(i, acts)[1..] == Alone(i, acts[1..]);
      AloneActs(i, acts[1..], j);
      assert [acts[0]] + acts[1..] == acts;
    }
  }

  /** The loop of `ParWorker` i with allowed answers is a run of the system that moves no other worker. */
  lemma {:induction false} ParallelLoopRuns(s: Sys, i: nat, turns: seq<Turn>)
    requires SysOk(s) && i < |s.provs| && forall k :: 0 <= k < |turns| ==> turns[k].Valid()
    requires Fits(s.provs[i], LoopActs(s.provs[i].w, turns))
    ensures var steps := Alone(i, LoopActs(s.provs[i].w, turns));
            && Run(s, steps) && |Final(s, steps).provs| == |s.provs|
            && Final(s, steps).provs[i].w == RunTurns(s.provs[i].w, turns).0
            && Recorded(s.provs[i].book, RunTurns(s.provs[i].w, turns).1, Final(s, steps).provs[i].book)
  {
    var acts := LoopActs(s.provs[i].w, turns);
    forall j | 0 <= j < |s.provs| ensures Fits(s.provs[j], ActsOf(Alone(i, acts), j)) {
      AloneActs(i, acts, j);
    }
    AnyInterleavingRuns(s, Alone(i, acts));
    AloneActs(i, acts, i);
    RunFollowsLoop(s, Alone(i, acts), i, turns);
  }

  // The sequential worker's own order

  /** One act for every provider, in order of their numbers from `k` on. */
  function Spread(acts: seq<Act>, k: nat): (r: seq<SysStep>)
    requires k <= |acts|
    ensures forall e :: e in r ==> e.Worker? && e.i < |acts|
    decreases |acts| - k
  {
    if k == |acts| then [] else [SysStep.Worker(k, acts[k])] + Spread(acts, k + 1)
  }

  lemma {:induction false} SpreadActs(acts: seq<Act>, k: nat, j: nat)
    requires k <= |acts|
    ensures ActsOf(Spread(acts, k), j) == if k <= j < |acts| then [acts[j]] else []
    decreases |acts| - k
  {
    if k < |acts| {
      var m, e := k + 1, SysStep.Worker(k, acts[k]);
      SpreadActs(acts, m, j);
      ActsOfConcat([e], Spread(acts, m), j);
      assert [e][1..] == [];
    }
  }

  function Sends(t: SeqTurn, n: nat): (r: seq<Act>)
    requires t.Valid(n) && t.job.Some?
    ensures |r| == n
  {
    seq(n, i requires 0 <= i < n => DoSend(t.job.value, t.sent, t.fills[i].data[..t.fills[i].len], t.answers[i]))
  }

  function Reaps(replies: seq<ReapAnswer>): (r: seq<Act>)
    ensures |r| == |replies|
  {
    seq(|replies|, i requires 0 <= i < |replies| => DoReap(replies[i]))
  }

  function Deliveries(resps: seq<Option<ReconnectResp>>): (r: seq<Act>)
    ensures |r| == |resps|
  {
    seq(|resps|, i requires 0 <= i < |resps| => DoDeliver(resps[i]))
  }

  /** A turn of the sequential loop: all sends, all reaps, the tick, all deliveries. */
  function TurnSteps(tick: nat, t: SeqTurn, n: nat): (r: seq<SysStep>)
    requires t.Valid(n)
    ensures forall e :: e in r ==> e.Worker? && e.i < n
  {
    (if t.job.Some? then Spread(Sends(t, n), 0) else [])
    + Spread(Reaps(t.replies), 0)
    + (Spread(seq(n, _ => DoTick), 0)
       + (if Periodic((tick + 1) % TICKS) then Spread(Deliveries(t.periodic), 0) else [])
       + (if t.idle then Spread(Deliveries(t.afterIdle), 0) else []))
  }

  lemma {:induction false} TurnStepsProject(tick: nat, t: SeqTurn, n: nat, j: nat)
    requires t.Valid(n) && j < n
    ensures ActsOf(TurnSteps(tick, t, n), j) == TurnActs(tick, t.For(j))
  {
    var sends := if t.job.Some? then Spread(Sends(t, n), 0) else [];
    var reaps, ticks := Spread(Reaps(t.replies), 0), Spread(seq(n, _ => DoTick), 0);
    var periodic := if Periodic((tick + 1) % TICKS) then Spread(Deliveries(t.periodic), 0) else [];
    var idle := if t.idle then Spread(Deliveries(t.afterIdle), 0) else [];
    ActsOfConcat(sends + reaps, ticks + periodic + idle, j);
    ActsOfConcat(sends, reaps, j);
    ActsOfConcat(ticks + periodic, idle, j);
    ActsOfConcat(ticks, periodic, j);
    if t.job.Some? { SpreadActs(Sends(t, n), 0, j); }
    SpreadActs(Reaps(t.replies), 0, j);
    SpreadActs(seq(n, _ => DoTick), 0, j);
    SpreadActs(Deliveries(t.periodic), 0, j);
    SpreadActs(Deliveries(t.afterIdle), 0, j);
  }

  function TickAfter(tick: nat, k: nat): nat {
    if k == 0 then tick else (TickAfter(tick, k - 1) + 1) % TICKS
  }

  lemma {:induction false} TurnsTick(w: Par, turns: seq<Turn>)
    requires forall k :: 0 <= k < |turns| ==> turns[k].Valid()
    ensures RunTurns(w, turns).0.tick == TickAfter(w.tick, |turns|)
    decreases |turns|
  {
    if turns != [] {
      var init, last := turns[..|turns| - 1], turns[|turns| - 1];
      var w1 := RunTurns(w, init).0;
      TurnsTick(w, init);
      TickUntouched(w1, last);
      TickUntouched(Sending(w1, last).0, last);
    }
  }

  function LoopSteps(tick: nat, turns: seq<SeqTurn>, n: nat): (r: seq<SysStep>)
    requires forall k :: 0 <= k < |turns| ==> turns[k].Valid(n)
    ensures forall e :: e in r ==> e.Worker? && e.i < n
  {
    if turns == [] then []
    else
      var m := |turns| - 1;
      LoopSteps(tick, turns[..m], n) + TurnSteps(TickAfter(tick, m), turns[m], n)
  }

  lemma {:induction false} LoopStepsProject(w: Par, turns: seq<SeqTurn>, n: nat, j: nat)
    requires j < n && forall k :: 0 <= k < |turns| ==> turns[k].Valid(n)
    ensures ActsOf(LoopSteps(w.tick, turns, n), j) == LoopActs(w, TurnsFor(turns, n, j))
    decreases |turns|
  {
    if turns != [] {
      var m := |turns| - 1;
      var init, own := turns[..m], TurnsFor(turns, n, j);
      LoopStepsProject(w, init, n, j);
      assert own[..m] == TurnsFor(init, n, j);
      TurnsTick(w, own[..m]);
      TurnStepsProject(TickAfter(w.tick, m), turns[m], n, j);
      ActsOfConcat(LoopSteps(w.tick, init, n), TurnSteps(TickAfter(w.tick, m), turns[m], n), j);
    }
  }

  /**
    The loop of `SequentialWorker`, in its own order over all providers and with
    allowed answers, is a run of the system, and leaves every provider, its sends
    and its responses where that loop leaves them.
   */
  lemma {:induction false} SequentialLoopRuns(s: Sys, tick: nat, turns: seq<SeqTurn>)
    requires SysOk(s) && forall k :: 0 <= k < |turns| ==> turns[k].Valid(|s.provs|)
    requires forall j :: 0 <= j < |s.provs| ==> s.provs[j].w.tick == tick
    requires forall j :: 0 <= j < |s.provs| ==>
               Fits(s.provs[j], LoopActs(s.provs[j].w, TurnsFor(turns, |s.provs|, j)))
    ensures var steps, n := LoopSteps(tick, turns, |s.provs|), |s.provs|;
            && Run(s, steps) && |Final(s, steps).provs| == n
            && forall j :: 0 <= j < n ==>
                 && Final(s, steps).provs[j].w == RunTurns(s.provs[j].w, TurnsFor(turns, n, j)).0
                 && Recorded(s.provs[j].book, RunTurns(s.provs[j].w, TurnsFor(turns, n, j)).1,
                             Final(s, steps).provs[j].book)
  {
    var n := |s.provs|;
    var steps := LoopSteps(tick, turns, n);
    forall j | 0 <= j < n
      ensures ActsOf(steps, j) == LoopActs(s.provs[j].w, TurnsFor(turns, n, j)) && Fits(s.provs[j], ActsOf(steps, j))
    {
      LoopStepsProject(s.provs[j].w, turns, n, j);
    }
    AnyInterleavingRuns(s, steps);
    RunLength(s, steps);
    forall j | 0 <= j < n
      ensures Final(s, steps).provs[j].w == RunTurns(s.provs[j].w, TurnsFor(turns, n, j)).0
      ensures Recorded(s.provs[j].book, RunTurns(s.provs[j].w, TurnsFor(turns, n, j)).1, Final(s, steps).provs[j].book)
    {
      RunFollowsLoop(s, steps, j, TurnsFor(turns, n, j));
    }
  }
}
