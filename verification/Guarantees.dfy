/** What callers of the sender can rely on, over every run of the whole system. */
module Guarantees {
  import opened Bytes
  import opened Worker
  import opened Ledger
  import opened System
  import JsonRpc

  /** `s` is reached from the state `build` leaves by some run. */
  ghost predicate Reached(cfg: Config, steps: seq<SysStep>, s: Sys) {
    cfg.Valid() && Run(Init(cfg), steps) && Final(Init(cfg), steps) == s
  }

  lemma ReachedOk(cfg: Config, steps: seq<SysStep>, s: Sys)
    requires Reached(cfg, steps, s)
    ensures SysOk(s) && s.cfg == cfg
  {
    InitOk(cfg);
    RunKeeps(Init(cfg), steps);
  }

  // Outcomes

  /** The send whose outcome the sink received as number `k` from provider `i`. */
  function SendOf(s: Sys, i: nat, k: nat): (n: nat)
    requires i < |s.provs| && k < |s.provs[i].book.kept|
  {
    s.provs[i].book.kept[k].send
  }

  /**
    The outcomes from provider i name different successful sends to provider i,
    in pop order, each with its job, the time stamp of its pop, the provider's
    number, the time its response settled and the verdict of the provider's codec
    on the bytes kept.
   */
  lemma OutcomesFollowSends(cfg: Config, steps: seq<SysStep>, s: Sys, i: nat)
    requires Reached(cfg, steps, s) && i < cfg.N()
    ensures i < |s.provs|
    ensures var p := s.provs[i];
            && |p.received| <= |p.book.kept|
            && (forall k :: 0 <= k < |p.received| ==>
                  var o, n, resp := p.received[k], SendOf(s, i, k), p.book.kept[k].resp;
                  && n < |p.book.sends|
                  && o.job == p.book.sends[n].job.id && o.sentAt == p.book.sends[n].sent && o.provider == i % U16
                  && o.settledAt == resp.settledTsc
                  && o.kind == if resp.noResponse then JsonRpc.NoResponse else cfg.codecs[i](resp.bytes))
            && (forall j, k :: 0 <= j < k < |p.received| ==>
                  && SendOf(s, i, j) < SendOf(s, i, k) < |p.book.sends|
                  && p.book.sends[SendOf(s, i, j)].pop < p.book.sends[SendOf(s, i, k)].pop)
  {
    ReachedOk(cfg, steps, s);
    var p := s.provs[i];
    assert ProvOk(p, i, s.cfg, s.serial);
    forall k | 0 <= k < |p.book.kept| ensures Names(p.book.kept[k], p.book.sends, i % U16) {
      assert p.book.kept[k] in p.book.pushes;
    }
  }

  function FromProvider(sink: seq<ProviderOutcome>, i: nat): seq<ProviderOutcome> {
    if sink == [] then []
    else FromProvider(sink[..|sink| - 1], i)
         + (if sink[|sink| - 1].provider == i then [sink[|sink| - 1]] else [])
  }

  ghost predicate SinkOk(s: Sys) {
    forall i :: 0 <= i < |s.provs| ==> FromProvider(s.sink, i) == s.provs[i].received
  }

  /** Only the lane moves outcomes. */
  lemma SinkUntouched(s: Sys, e: SysStep)
    requires Enabled(s, e) && !e.Lane?
    ensures Next(s, e).sink == s.sink && |Next(s, e).provs| == |s.provs|
    ensures forall i :: 0 <= i < |s.provs| ==> Next(s, e).provs[i].received == s.provs[i].received
  {
  }

  lemma SinkLane(s: Sys, i: nat)
    requires SysOk(s) && SinkOk(s) && Enabled(s, Lane(i)) && |s.provs| <= U16
    ensures SinkOk(Next(s, Lane(i)))
  {
    var p := s.provs[i];
    assert ProvOk(p, i, s.cfg, s.serial);
    var o := ParseOne(p.book.ring[0], s.cfg.codecs[i]);
    assert p.book.kept[|p.received| + 0] in p.book.pushes;
    assert o.provider == i;
    assert (s.sink + [o])[..|s.sink|] == s.sink;
  }

  lemma SinkStep(s: Sys, e: SysStep)
    requires SysOk(s) && SinkOk(s) && Enabled(s, e) && |s.provs| <= U16
    ensures SinkOk(Next(s, e)) && |Next(s, e).provs| == |s.provs|
  {
    if e.Lane? {
      SinkLane(s, e.i);
    } else {
      SinkUntouched(s, e);
    }
  }

  lemma {:induction false} SinkRun(s: Sys, steps: seq<SysStep>)
    requires SysOk(s) && SinkOk(s) && Run(s, steps) && |s.provs| <= U16
    ensures SinkOk(Final(s, steps))
    decreases |steps|
  {
    if steps != [] {
      SinkStep(s, steps[0]);
      StepKeeps(s, steps[0]);
      SinkRun(Next(s, steps[0]), steps[1..]);
    }
  }

  /** With at most 65536 providers, what the sink sees under a provider number is what that provider's ring yielded. */
  lemma {:induction false} SinkSeparatesProviders(cfg: Config, steps: seq<SysStep>, s: Sys, i: nat)
    requires Reached(cfg, steps, s) && i < cfg.N() <= U16
    ensures i < |s.provs| && FromProvider(s.sink, i) == s.provs[i].received
  {
    InitOk(cfg);
    SinkRun(Init(cfg), steps);
    RunKeeps(Init(cfg), steps);
  }

  // Conservation

  /** Every job counted as sent over HTTP was pushed, dropped on a full ring, superseded, lost or is in flight. */
  lemma SendsAreConserved(cfg: Config, steps: seq<SysStep>, s: Sys, i: nat)
    requires Reached(cfg, steps, s) && i < cfg.N() && cfg.protocols[i].HttpProtocol?
    ensures i < |s.provs|
    ensures var w, b := s.provs[i].w, s.provs[i].book;
            var dropped := |b.pushes| - |b.kept|;
            && dropped >= 0
            && w.jobsSent == |b.kept| + dropped + b.superseded + b.lost + (if w.inflight.Some? then 1 else 0)
  {
    ReachedOk(cfg, steps, s);
    var b := s.provs[i].book;
    assert ProvOk(s.provs[i], i, s.cfg, s.serial);
    KeptIsFewer(b, s.provs[i].w.Pid());
  }

  lemma KeptIsFewer(b: Book, pid: nat)
    requires LogOk(b, pid)
    ensures |b.kept| <= |b.pushes|
  {
    var kept := set k | 0 <= k < |b.kept| :: b.kept[k].send;
    var built := set k | 0 <= k < |b.pushes| :: b.pushes[k].send;
    assert kept <= built by {
      forall k | 0 <= k < |b.kept| ensures b.kept[k].send in built {
        var j :| 0 <= j < |b.pushes| && b.pushes[j] == b.kept[k];
      }
    }
    DistinctCount(b.kept);
    DistinctCount(b.pushes);
    assert |kept| <= |built| by { SubsetSize(kept, built); }
  }

  lemma {:induction false} DistinctCount(recs: seq<PushRec>)
    requires forall j, k :: 0 <= j < k < |recs| ==> recs[j].send < recs[k].send
    ensures |set k | 0 <= k < |recs| :: recs[k].send| == |recs|
    decreases |recs|
  {
    var all := set k | 0 <= k < |recs| :: recs[k].send;
    if recs != [] {
      var init := recs[..|recs| - 1];
      DistinctCount(init);
      var some := set k | 0 <= k < |init| :: init[k].send;
      assert all == some + {recs[|recs| - 1].send};
    }
  }

  lemma {:induction false} SubsetSize(a: set<nat>, b: set<nat>)
    requires a <= b
    ensures |a| <= |b|
  {
    if a != {} {
      var x :| x in a;
      SubsetSize(a - {x}, b - {x});
    }
  }

  // Connections

  /**
    Both slots of provider i hold different connections built for provider i with
    its protocol; a standby was never used or was swapped out after a failure.
   */
  lemma SlotsAreSafe(cfg: Config, steps: seq<SysStep>, s: Sys, i: nat)
    requires Reached(cfg, steps, s) && i < cfg.N()
    ensures i < |s.provs|
    ensures var w, b := s.provs[i].w, s.provs[i].book;
            && w.Active().tag != w.Standby().tag
            && w.Active().tag.builtFor == w.Standby().tag.builtFor == i
            && w.Active().Http? == w.Standby().Http? == cfg.protocols[i].HttpProtocol?
            && (w.Standby().tag !in b.used || (w.Standby().tag in b.out && w.Standby().tag in b.failed))
    ensures cfg.kind.LibTpa? ==>
              var w := s.provs[i].w;
              {w.Active().tag, w.Standby().tag} == {ConnTag(i, 2 * i), ConnTag(i, 2 * i + 1)}
  {
    ReachedOk(cfg, steps, s);
    assert ProvOk(s.provs[i], i, s.cfg, s.serial);
  }

  /** What waits in response channel i was built for provider i and says so. */
  lemma ChannelsAreRouted(cfg: Config, steps: seq<SysStep>, s: Sys, i: nat)
    requires Reached(cfg, steps, s) && i < cfg.N()
    ensures i < |s.provs|
    ensures s.provs[i].slot.Some? ==>
              s.provs[i].slot.value.providerIdx == s.provs[i].slot.value.conn.tag.builtFor == i
  {
    ReachedOk(cfg, steps, s);
    assert ProvOk(s.provs[i], i, s.cfg, s.serial);
  }

  // Attribution

  /** This reap takes a body and attributes it to the job in flight. */
  predicate PushesBody(w: Par, a: ReapAnswer) {
    w.Active().Http? && a.poll.Ok? && a.poll.value.Some? && w.inflight.Some?
  }

  /**
    In every reachable state: a body about to be pushed names the latest send. If
    the connection has not failed, it owes an answer, and the send it has owed one
    for longest is the one named exactly when it owes one answer only.
   */
  lemma AttributionIsExact(cfg: Config, steps: seq<SysStep>, s: Sys, i: nat, a: ReapAnswer)
    requires Reached(cfg, steps, s) && i < cfg.N()
    requires Enabled(s, Worker(i, DoReap(a))) && PushesBody(s.provs[i].w, a)
    ensures var w, b := s.provs[i].w, s.provs[i].book;
            var t, body := w.Active().tag, a.poll.value.value;
            var owed := b.Open(t);
            && b.cur.Some?
            && (exists resp :: Reap(w, a).1 == [Answered(t, body), Pushed(t, resp)]
                            && Names(PushRec(b.cur.value, resp), b.sends, i % U16)
                            && resp.bytes == JsonRpc.Capped(body) && !resp.noResponse && resp.settledTsc == a.settled)
            && (t !in b.failed ==> owed != [] && (owed[0] == b.cur.value <==> |owed| == 1))
  {
    ReachedOk(cfg, steps, s);
    var w, b := s.provs[i].w, s.provs[i].book;
    assert ProvOk(s.provs[i], i, s.cfg, s.serial);
    var (job, sent) := w.inflight.value;
    var resp := RawResp(job.id, w.Pid(), sent, a.settled, JsonRpc.Capped(a.poll.value.value), false);
    assert Reap(w, a).1 == [Answered(w.Active().tag, a.poll.value.value), Pushed(w.Active().tag, resp)];
    var owed := b.Open(w.Active().tag);
    assert |owed| > 1 ==> owed[0] < owed[|owed| - 1];
  }

  /** Without a job popped while one is in flight, a live connection owes at most the send in flight. */
  ghost predicate Serial(w: Par, b: Book) {
    b.protocol.HttpProtocol? && w.Active().tag !in b.failed ==>
      b.Open(w.Active().tag) == if b.cur.Some? then [b.cur.value] else []
  }

  lemma {:induction false} SerialAfterFailover(w: Par, b: Book)
    requires BookOk(w, b)
    ensures Serial(Failover(w).0, NoteAll(b, Failover(w).1)) && NoteAll(b, Failover(w).1).cur.None?
  {
    FailoverNotes(w, b);
  }

  lemma {:induction false} SerialAfterRecord(w: Par, b: Book, job: Job, sent: nat, at: nat, tx: seq<byte>)
    requires b.protocol.HttpProtocol? && w.Active().tag !in b.failed && Serial(w, b) && b.cur.None?
    ensures Serial(Record(w, job, sent), NoteAll(b, [SentOn(w.Active().tag, job, sent, at, tx)]))
  {
    NoteOne(b, SentOn(w.Active().tag, job, sent, at, tx));
  }

  lemma {:induction false} SerialRetry(w: Par, b: Book, job: Job, sent: nat, tx: seq<byte>, a: SendAnswer)
    requires BookOk(w, b) && b.protocol.HttpProtocol?
    requires a.first.Err? && ConnFailed(a.first.error)
    requires a.retry.Ok? ==> w.Standby().tag !in b.failed
    ensures Serial(SendTo(w, job, sent, tx, a).0, NoteAll(b, SendTo(w, job, sent, tx, a).1))
  {
    var t := w.Active().tag;
    var b1 := Note(b, Broke(t));
    KeepsBroke(w, b, t);
    NoteOne(b, Broke(t));
    var (w2, fx2) := Failover(w);
    KeepsFailover(w, b1);
    SerialAfterFailover(w, b1);
    var b2 := NoteAll(b1, fx2);
    NoteConcat(b, [Broke(t)], fx2);
    NoteConcat(b, [Broke(t)] + fx2, Retry(w2, job, sent, tx, a).1);
    if a.retry.Ok? {
      SerialAfterRecord(w2, b2, job, sent, a.now, tx);
    } else if ConnFailed(a.retry.error) {
      NoteOne(b2, Broke(w2.Active().tag));
    }
  }

  lemma SerialSend(w: Par, b: Book, job: Job, sent: nat, tx: seq<byte>, a: SendAnswer)
    requires BookOk(w, b) && Behaves(w, b, DoSend(job, sent, tx, a)) && Serial(w, b) && w.inflight.None?
    ensures Serial(SendTo(w, job, sent, tx, a).0, After(w, b, DoSend(job, sent, tx, a)))
  {
    var b1 := b.(pops := b.pops + 1);
    KeepsPop(w, b);
    assert b1.Open(w.Active().tag) == b.Open(w.Active().tag);
    if b.protocol.HttpProtocol? {
      if a.first.Ok? {
        SerialAfterRecord(w, b1, job, sent, a.now, tx);
      } else if ConnFailed(a.first.error) {
        SerialRetry(w, b1, job, sent, tx, a);
      }
    } else {
      NotesUsed(b1, SendTo(w, job, sent, tx, a).1, w.Standby().tag);
    }
  }

  lemma {:induction false} SerialBody(w: Par, b: Book, a: ReapAnswer)
    requires BookOk(w, b) && Behaves(w, b, DoReap(a)) && Serial(w, b) && PushesBody(w, a)
    ensures Serial(Reap(w, a).0, NoteAll(b, Reap(w, a).1))
  {
    var t, body := w.Active().tag, a.poll.value.value;
    var (job, sent) := w.inflight.value;
    var resp := RawResp(job.id, w.Pid(), sent, a.settled, JsonRpc.Capped(body), false);
    assert Reap(w, a).1 == [Answered(t, body)] + [Pushed(t, resp)];
    NoteConcat(b, [Answered(t, body)], [Pushed(t, resp)]);
    NoteOne(b, Answered(t, body));
    NoteOne(Note(b, Answered(t, body)), Pushed(t, resp));
  }

  lemma {:induction false} SerialReap(w: Par, b: Book, a: ReapAnswer)
    requires BookOk(w, b) && Behaves(w, b, DoReap(a)) && Serial(w, b)
    ensures Serial(Reap(w, a).0, NoteAll(b, Reap(w, a).1))
  {
    var t := w.Active().tag;
    if b.protocol.QuicProtocol? {
      NotesUsed(b, Reap(w, a).1, w.Standby().tag);
    } else if a.poll.Ok? {
      if a.poll.value.Some? { SerialBody(w, b, a); }
    } else if ConnFailed(a.poll.error) {
      KeepsBroke(w, b, t);
      NoteOne(b, Broke(t));
      SerialAfterFailover(w, Note(b, Broke(t)));
      NoteConcat(b, [Broke(t)], Failover(w).1);
    }
  }

  lemma SerialAct(w: Par, b: Book, a: Act)
    requires BookOk(w, b) && Behaves(w, b, a) && Serial(w, b) && (a.DoSend? ==> w.inflight.None?)
    ensures Serial(Step(w, a).0, After(w, b, a))
  {
    match a
    case DoSend(job, sent, tx, answer) => SerialSend(w, b, job, sent, tx, answer);
    case DoReap(reply) => SerialReap(w, b, reply);
    case DoTick =>
    case DoDeliver(_) =>
  }

  lemma PushesOnlyBodies(w: Par, a: Act, e: Effect)
    requires w.Active().Http? && e in Step(w, a).1 && e.Pushed?
    ensures a.DoReap? && PushesBody(w, a.reply)
  {
  }

  /** Answers stay recorded under the sends they answer, and what is pushed comes from them. */
  lemma GenuineAct(w: Par, b: Book, a: Act)
    requires BookOk(w, b) && Behaves(w, b, a) && Serial(w, b) && AnswersOk(b) && Genuine(b)
    ensures AnswersOk(After(w, b, a)) && Genuine(After(w, b, a))
  {
    var b1, fx := if a.DoSend? then b.(pops := b.pops + 1) else b, Step(w, a).1;
    SameAnswers(b, b1);
    NotesKeepAnswers(b1, fx);
    if b.protocol.QuicProtocol? {
      PairChanges(w, a);
      NotesUsed(b1, fx, w.Standby().tag);
    } else if a.DoReap? && PushesBody(w, a.reply) {
      GenuineBody(w, b, a.reply);
    } else {
      forall e | e in fx && e.Pushed? ensures false { PushesOnlyBodies(w, a, e); }
    }
  }

  lemma {:induction false} GenuineBody(w: Par, b: Book, a: ReapAnswer)
    requires BookOk(w, b) && Behaves(w, b, DoReap(a)) && Serial(w, b) && AnswersOk(b) && Genuine(b)
    requires b.protocol.HttpProtocol? && PushesBody(w, a)
    ensures Genuine(NoteAll(b, Reap(w, a).1))
  {
    var t, body := w.Active().tag, a.poll.value.value;
    var (job, sent) := w.inflight.value;
    var resp := RawResp(job.id, w.Pid(), sent, a.settled, JsonRpc.Capped(body), false);
    assert Reap(w, a).1 == [Answered(t, body)] + [Pushed(t, resp)];
    NoteConcat(b, [Answered(t, body)], [Pushed(t, resp)]);
    NoteOne(b, Answered(t, body));
    NoteOne(Note(b, Answered(t, body)), Pushed(t, resp));
    AnswerIsGenuine(b, t, body, resp);
  }

  ghost predicate SerialProv(p: Prov) {
    Serial(p.w, p.book) && AnswersOk(p.book) && Genuine(p.book)
  }

  /** A run in which the HTTP connections of provider `i` behave. */
  ghost predicate BehavedRun(s: Sys, steps: seq<SysStep>, i: nat)
    requires Run(s, steps)
    decreases |steps|
  {
    steps == [] || (BehavedMove(s, steps[0], i) && BehavedRun(Next(s, steps[0]), steps[1..], i))
  }

  predicate BehavedMove(s: Sys, e: SysStep, i: nat)
    requires Enabled(s, e)
  {
    e.Worker? && e.i == i ==> Behaves(s.provs[i].w, s.provs[i].book, e.act)
  }

  /** A run in which the worker of provider `i` pops no job while it has one in flight. */
  ghost predicate SerialRun(s: Sys, steps: seq<SysStep>, i: nat)
    requires Run(s, steps)
    decreases |steps|
  {
    steps == [] || (SerialMove(s, steps[0], i) && SerialRun(Next(s, steps[0]), steps[1..], i))
  }

  predicate SerialMove(s: Sys, e: SysStep, i: nat)
    requires Enabled(s, e)
  {
    e.Worker? && e.i == i && e.act.DoSend? ==> s.provs[i].w.inflight.None?
  }

  lemma SerialStep(s: Sys, e: SysStep, i: nat)
    requires SysOk(s) && Enabled(s, e) && SerialMove(s, e, i) && BehavedMove(s, e, i) && i < |s.provs|
    requires SerialProv(s.provs[i])
    ensures |Next(s, e).provs| == |s.provs| && SerialProv(Next(s, e).provs[i])
  {
    if e.Worker? && e.i == i {
      var p := s.provs[i];
      assert ProvOk(p, i, s.cfg, s.serial);
      SerialAct(p.w, p.book, e.act);
      GenuineAct(p.w, p.book, e.act);
    } else {
      OthersMove(s, e, i);
      SameAnswers(s.provs[i].book, Next(s, e).provs[i].book);
    }
  }

  lemma {:induction false} SerialRunKeeps(s: Sys, steps: seq<SysStep>, i: nat)
    requires SysOk(s) && Run(s, steps) && SerialRun(s, steps, i) && BehavedRun(s, steps, i)
    requires i < |s.provs| && SerialProv(s.provs[i])
    ensures |Final(s, steps).provs| == |s.provs| && SerialProv(Final(s, steps).provs[i])
    decreases |steps|
  {
    if steps != [] {
      SerialStep(s, steps[0], i);
      StepKeeps(s, steps[0]);
      SerialRunKeeps(Next(s, steps[0]), steps[1..], i);
    }
  }

  lemma {:induction false} SerialReached(cfg: Config, steps: seq<SysStep>, s: Sys, i: nat)
    requires Reached(cfg, steps, s) && SerialRun(Init(cfg), steps, i) && BehavedRun(Init(cfg), steps, i) && i < cfg.N()
    ensures SysOk(s) && s.cfg == cfg && i < |s.provs| && SerialProv(s.provs[i])
  {
    InitOk(cfg);
    ReachedOk(cfg, steps, s);
    SerialRunKeeps(Init(cfg), steps, i);
  }

  /**
    In a run whose worker i pops no job while it has one in flight and whose
    connections behave, whatever the other workers and connections do, every body
    pushed for provider i is the answer to the very send its response names, across
    failovers and rebuilds.
   */
  lemma {:induction false} AnswersMatchJobs(cfg: Config, steps: seq<SysStep>, s: Sys, i: nat, a: ReapAnswer)
    requires Reached(cfg, steps, s) && i < cfg.N() && SerialRun(Init(cfg), steps, i) && BehavedRun(Init(cfg), steps, i)
    requires Enabled(s, Worker(i, DoReap(a))) && PushesBody(s.provs[i].w, a)
    requires Behaves(s.provs[i].w, s.provs[i].book, DoReap(a))
    ensures s.provs[i].book.cur.Some?
    ensures s.provs[i].book.Open(s.provs[i].w.Active().tag) == [s.provs[i].book.cur.value]
  {
    SerialReached(cfg, steps, s, i);
    AttributionIsExact(cfg, steps, s, i, a);
    assert ProvOk(s.provs[i], i, s.cfg, s.serial);
  }

  /**
    In such a run every outcome of an HTTP provider was parsed from the first 1024
    bytes of the body that answered the send it names. With the JSON-RPC codec, an
    acceptance is what the whole body says if and only if that body is UTF-8.
   */
  lemma {:induction false} AcceptanceIsGenuine(cfg: Config, steps: seq<SysStep>, s: Sys, i: nat, k: nat)
    requires Reached(cfg, steps, s) && i < cfg.N() && SerialRun(Init(cfg), steps, i) && BehavedRun(Init(cfg), steps, i)
    requires cfg.protocols[i].HttpProtocol? && i < |s.provs| && k < |s.provs[i].received|
    ensures k < |s.provs[i].book.kept| && SendOf(s, i, k) in s.provs[i].book.answers
    ensures var body := s.provs[i].book.answers[SendOf(s, i, k)];
            && s.provs[i].received[k].kind == cfg.codecs[i](JsonRpc.Capped(body))
            && ((forall b :: cfg.codecs[i](b) == JsonRpc.Parse(b)) && s.provs[i].received[k].kind.Accepted? ==>
                  (JsonRpc.Parse(body) == s.provs[i].received[k].kind <==> Utf8(body)))
  {
    SerialReached(cfg, steps, s, i);
    var p := s.provs[i];
    assert ProvOk(p, i, s.cfg, s.serial);
    assert p.book.kept[k] in p.book.pushes;
    var j :| 0 <= j < |p.book.pushes| && p.book.pushes[j] == p.book.kept[k];
    assert PushGenuine(p.book, p.book.pushes[j]);
    JsonRpc.CappedAcceptance(p.book.answers[SendOf(s, i, k)]);
  }

  lemma {:induction false} RunTwo(s: Sys, e: SysStep, f: SysStep)
    requires Enabled(s, e) && Enabled(Next(s, e), f)
    ensures Run(s, [e, f]) && Final(s, [e, f]) == Next(Next(s, e), f)
    ensures BehavedMove(s, e, 0) && BehavedMove(Next(s, e), f, 0) ==> BehavedRun(s, [e, f], 0)
  {
    assert [e, f][1..] == [f];
    assert [f][1..] == [];
    assert Run(Next(Next(s, e), f), []);
    assert Run(Next(s, e), [f]);
    assert BehavedMove(Next(s, e), f, 0) ==> BehavedRun(Next(s, e), [f], 0);
    assert Final(Next(Next(s, e), f), [f][1..]) == Next(Next(s, e), f);
    assert Final(Next(s, e), [e, f][1..]) == Next(Next(s, e), f);
  }

  lemma SentTwice(p: Prov, t: ConnTag, j: Job, k: Job, tx: seq<byte>, a: SendAnswer)
    requires p.w.Active() == Http(t) && a.first.Ok? && p.book == NewBook(HttpProtocol, t)
    ensures var x, y := DoSend(j, 10, tx, a), DoSend(k, 20, tx, a);
            var w1, b1 := Step(p.w, x).0, After(p.w, p.book, x);
            var w2, b2 := Step(w1, y).0, After(w1, b1, y);
            && b1.failed == b2.failed == {} && w1.Active() == w2.Active() == Http(t) && w2.Pid() == p.w.Pid()
            && b2.protocol.HttpProtocol? && b2.Open(t) == [0, 1] && b2.cur == Some(1) && b2.answers == map[]
            && w2.inflight == Some((k, 20)) && |b2.sends| == 2 && b2.sends[0].job == j && b2.sends[1].job == k
  {
    var x, y := DoSend(j, 10, tx, a), DoSend(k, 20, tx, a);
    NoteOne(p.book.(pops := 1), SentOn(t, j, 10, a.now, tx));
    var w1, b1 := Step(p.w, x).0, After(p.w, p.book, x);
    NoteOne(b1.(pops := 2), SentOn(t, k, 20, a.now, tx));
    assert b1.Open(t) == [0];
  }

  /** Pipelining breaks it: after two sends the answer to the first is pushed under the second job. */
  lemma PipeliningMisattributes(codec: Codec, tx: seq<byte>, body: seq<byte>, settled: nat)
    ensures var cfg := Config(RawLibc, [HttpProtocol], [codec]);
            var ok := SendAnswer(Ok(()), Ok(()), 0);
            var steps := [Worker(0, DoSend(Job(1, 0), 10, tx, ok)), Worker(0, DoSend(Job(2, 0), 20, tx, ok))];
            var reply := ReapAnswer(Ok(Some(body)), false, 0, settled);
            && Run(Init(cfg), steps)
            && var s := Final(Init(cfg), steps);
               && BehavedRun(Init(cfg), steps, 0) && Enabled(s, Worker(0, DoReap(reply)))
               && Behaves(s.provs[0].w, s.provs[0].book, DoReap(reply))
               && var w, b := s.provs[0].w, s.provs[0].book;
                  var t := w.Active().tag;
                  && b.Open(t) == [0, 1] && |b.sends| == 2 && b.sends[0].job.id == 1 && b.sends[1].job.id == 2
                  && Reap(w, reply).1 == [Answered(t, body),
                                          Pushed(t, RawResp(2, 0, 20, settled, JsonRpc.Capped(body), false))]
                  && After(w, b, DoReap(reply)).answers == map[0 := body]
  {
    var cfg := Config(RawLibc, [HttpProtocol], [codec]);
    var ok := SendAnswer(Ok(()), Ok(()), 0);
    var s := Init(cfg);
    var t := s.provs[0].w.Active().tag;
    SentTwice(s.provs[0], t, Job(1, 0), Job(2, 0), tx, ok);
    RunTwo(s, Worker(0, DoSend(Job(1, 0), 10, tx, ok)), Worker(0, DoSend(Job(2, 0), 20, tx, ok)));
    var p := Next(Next(s, Worker(0, DoSend(Job(1, 0), 10, tx, ok))), Worker(0, DoSend(Job(2, 0), 20, tx, ok))).provs[0];
    FirstUnderSecond(p.w, p.book, t, body, settled);
  }

  lemma FirstUnderSecond(w: Par, b: Book, t: ConnTag, body: seq<byte>, settled: nat)
    requires w.Active() == Http(t) && w.inflight == Some((Job(2, 0), 20)) && w.Pid() == 0
    requires b.protocol.HttpProtocol? && b.Open(t) == [0, 1] && b.cur == Some(1) && b.answers == map[]
    ensures var reply := ReapAnswer(Ok(Some(body)), false, 0, settled);
            var resp := RawResp(2, 0, 20, settled, JsonRpc.Capped(body), false);
            && Reap(w, reply).1 == [Answered(t, body), Pushed(t, resp)]
            && After(w, b, DoReap(reply)).answers == map[0 := body]
  {
    var resp := RawResp(2, 0, 20, settled, JsonRpc.Capped(body), false);
    assert [Answered(t, body), Pushed(t, resp)] == [Answered(t, body)] + [Pushed(t, resp)];
    NoteConcat(b, [Answered(t, body)], [Pushed(t, resp)]);
    NoteOne(b, Answered(t, body));
    NoteOne(Note(b, Answered(t, body)), Pushed(t, resp));
  }

  // QUIC

  /**
    A worker reports that a QUIC send got no response exactly when the active
    connection is alive and its latest send is more than 500 ms old; that send was
    never reported before, nothing was sent on the connection after it, and the
    connection was never swapped out.
   */
  lemma NoResponseIsEarned(cfg: Config, steps: seq<SysStep>, s: Sys, i: nat, a: ReapAnswer)
    requires Reached(cfg, steps, s) && i < cfg.N() && cfg.protocols[i].QuicProtocol?
    requires Enabled(s, Worker(i, DoReap(a)))
    ensures var w, b := s.provs[i].w, s.provs[i].book;
            var t := w.Active().tag;
            && ((exists resp :: Pushed(t, resp) in Reap(w, a).1) <==>
                  t !in b.failed && t in b.quic && b.quic[t] < |b.sends| && a.now - b.sends[b.quic[t]].at > WINDOW)
            && (forall resp :: Pushed(t, resp) in Reap(w, a).1 ==>
                  var k := b.quic[t];
                  && resp.noResponse && resp.settledTsc == a.settled && Names(PushRec(k, resp), b.sends, i % U16)
                  && b.sends[k].conn == t && t !in b.out
                  && (forall j :: k < j < |b.sends| ==> b.sends[j].conn != t)
                  && (forall j :: 0 <= j < |b.pushes| ==> b.pushes[j].send < k))
  {
    ReachedOk(cfg, steps, s);
    var w, b := s.provs[i].w, s.provs[i].book;
    var t := w.Active().tag;
    assert ProvOk(s.provs[i], i, s.cfg, s.serial);
    assert QuicOk(w, b);
    if !a.dead && WindowOver(w.Active(), a.now) {
      var (id, sent) := w.Active().inflight.value;
      var resp := RawResp(id, w.Pid(), sent, a.settled, [], true);
      assert Reap(w, a).1 == [Pushed(t, resp)];
      forall j | 0 <= j < |b.pushes| ensures b.pushes[j].send < b.quic[t] {
        assert j < |b.pushes| - 1 ==> b.pushes[j].send < b.pushes[|b.pushes| - 1].send;
      }
    }
  }
}
