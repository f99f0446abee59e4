/** One provider's side of a worker: the connection pair (conn/mod.rs), the
    in-flight slot and the transitions of `ParWorker` (transport/parallel.rs) as
    functions of the state and of the answers sockets, clocks and channels give. */
module Worker {
  import opened Bytes
  import JsonRpc

  type JobId = nat

  datatype Job = Job(id: JobId, ctx: nat)

  const U16: nat := 0x1_0000
  const TICKS: nat := 0x1_0000_0000
  const PERIOD: nat := 0x400

  // Connections

  /** Which connection it is: the provider it was built for and a number no other connection has. */
  datatype ConnTag = ConnTag(builtFor: nat, serial: nat)

  datatype ConnState =
    | Http(tag: ConnTag)
    | Quic(tag: ConnTag, inflight: Option<(JobId, nat)>, sentAt: Option<nat>)

  datatype ConnSlot = ConnSlot(conn: ConnState, healthy: bool)

  datatype DualConn = DualConn(active: ConnSlot, standby: ConnSlot) {
    function Swap(): DualConn {
      DualConn(standby.(healthy := true), active)
    }

    function ReplaceStandby(conn: ConnState): DualConn {
      this.(standby := ConnSlot(conn, true))
    }
  }

  datatype ConnKind = RawLibc | IoUring | LibTpa

  datatype ReconnectReq = ReconnectReq(providerIdx: nat, kind: ConnKind)

  datatype ReconnectResp = ReconnectResp(providerIdx: nat, conn: ConnState)

  datatype ErrorKind = UnexpectedEof | BrokenPipe | ConnectionReset | ConnectionAborted | WouldBlock | OtherKind

  datatype TransportError = Io(kind: ErrorKind) | Tls | Envelope | Closed

  /** An I/O error after which the connection is given up. */
  predicate ConnFailed(e: TransportError) {
    e.Io? && e.kind in {UnexpectedEof, BrokenPipe, ConnectionReset, ConnectionAborted}
  }

  /** Nanoseconds in the QUIC response window. */
  const WINDOW: nat := 500_000_000

  /** `poll_noresp_window`: more than the window has passed since the send in flight. */
  predicate WindowOver(q: ConnState, now: nat)
    requires q.Quic?
  {
    q.inflight.Some? && q.sentAt.Some? && now - q.sentAt.value > WINDOW
  }

  // Answers and effects

  type Sent = Result<(), TransportError>

  datatype SendAnswer = SendAnswer(first: Sent, retry: Sent, now: nat)

  datatype ReapAnswer = ReapAnswer(
    poll: Result<Option<seq<byte>>, TransportError>,
    dead: bool,
    now: nat,
    settled: nat)

  datatype RawResp = RawResp(
    job: JobId,
    provider: nat,
    sentTsc: nat,
    settledTsc: nat,
    bytes: seq<byte>,
    noResponse: bool)

  datatype Effect =
    | SentOn(tag: ConnTag, job: Job, sent: nat, at: nat, tx: seq<byte>)
    | Broke(tag: ConnTag)
    | FailedOver(from: ConnTag, to: ConnTag)
    | Asked(req: ReconnectReq)
    | Answered(tag: ConnTag, body: seq<byte>)
    | Pushed(tag: ConnTag, resp: RawResp)

  // The worker

  datatype Par = Par(
    providerIdx: nat,
    kind: ConnKind,
    dual: DualConn,
    inflight: Option<(Job, nat)>,
    tick: nat,
    jobsSent: nat)
  {
    function Active(): ConnState { dual.active.conn }
    function Standby(): ConnState { dual.standby.conn }
    function Pid(): nat { providerIdx % U16 }
  }

  function Failover(w: Par): (r: (Par, seq<Effect>)) {
    (w.(inflight := None, dual := w.dual.Swap()),
     [FailedOver(w.Active().tag, w.Standby().tag), Asked(ReconnectReq(w.providerIdx, w.kind))])
  }

  /** A frame went out: the in-flight slot now names this job. */
  function Record(w: Par, job: Job, sent: nat): Par {
    w.(inflight := Some((job, sent)), jobsSent := w.jobsSent + 1)
  }

  /** Second try on the connection that was standing by. */
  function Retry(w: Par, job: Job, sent: nat, tx: seq<byte>, a: SendAnswer): (r: (Par, seq<Effect>)) {
    if !w.Active().Http? then (w, [])
    else if a.retry.Ok? then (Record(w, job, sent), [SentOn(w.Active().tag, job, sent, a.now, tx)])
    else (w, if ConnFailed(a.retry.error) then [Broke(w.Active().tag)] else [])
  }

  function SendTo(w: Par, job: Job, sent: nat, tx: seq<byte>, a: SendAnswer): (r: (Par, seq<Effect>)) {
    var c := w.Active();
    match c
    case Http(tag) =>
      (match a.first
       case Ok(_) => (Record(w, job, sent), [SentOn(tag, job, sent, a.now, tx)])
       case Err(e) =>
         if ConnFailed(e) then
           var (w1, fx1) := Failover(w);
           var (w2, fx2) := Retry(w1, job, sent, tx, a);
           (w2, [Broke(tag)] + fx1 + fx2)
         else (w, []))
    case Quic(tag, _, _) =>
      var counted := w.(jobsSent := w.jobsSent + 1);
      if a.first.Ok? then
        var q := c.(inflight := Some((job.id, sent)), sentAt := Some(a.now));
        (counted.(dual := w.dual.(active := w.dual.active.(conn := q))),
         [SentOn(tag, job, sent, a.now, tx)])
      else (counted, [])
  }

  function Reap(w: Par, a: ReapAnswer): (r: (Par, seq<Effect>)) {
    var c := w.Active();
    match c
    case Http(tag) =>
      (match a.poll
       case Ok(Some(body)) =>
         (match w.inflight
          case Some((job, sent)) =>
            (w.(inflight := None),
             [Answered(tag, body), Pushed(tag, RawResp(job.id, w.Pid(), sent, a.settled, JsonRpc.Capped(body), false))])
          case None => (w, [Answered(tag, body)]))
       case Ok(None) => (w, [])
       case Err(e) =>
         if ConnFailed(e) then
           var (w1, fx) := Failover(w);
           (w1, [Broke(tag)] + fx)
         else (w, []))
    case Quic(tag, inflight, _) =>
      if a.dead then Failover(w)
      else if WindowOver(c, a.now) then
        var (id, sent) := inflight.value;
        (w.(dual := w.dual.(active := w.dual.active.(conn := c.(inflight := None, sentAt := None)))),
         [Pushed(tag, RawResp(id, w.Pid(), sent, a.settled, [], true))])
      else (w, [])
  }

  function Deliver(w: Par, resp: Option<ReconnectResp>): (r: (Par, seq<Effect>)) {
    (if resp.Some? then w.(dual := w.dual.ReplaceStandby(resp.value.conn)) else w, [])
  }

  /** What a worker does between two points where other threads may run. */
  datatype Act =
    | DoSend(job: Job, sent: nat, tx: seq<byte>, answer: SendAnswer)
    | DoReap(reply: ReapAnswer)
    | DoTick
    | DoDeliver(resp: Option<ReconnectResp>)

  function Step(w: Par, a: Act): (r: (Par, seq<Effect>)) {
    match a
    case DoSend(job, sent, tx, answer) => SendTo(w, job, sent, tx, answer)
    case DoReap(reply) => Reap(w, reply)
    case DoTick => (w.(tick := (w.tick + 1) % TICKS), [])
    case DoDeliver(resp) => Deliver(w, resp)
  }

  function Steps(w: Par, acts: seq<Act>): (r: (Par, seq<Effect>))
    decreases |acts|
  {
    if acts == [] then (w, [])
    else
      var (w1, fx1) := Step(w, acts[0]);
      var (w2, fx2) := Steps(w1, acts[1..]);
      (w2, fx1 + fx2)
  }

  lemma {:induction false} StepsConcat(w: Par, xs: seq<Act>, ys: seq<Act>)
    ensures var (w1, fx1) := Steps(w, xs);
            var (w2, fx2) := Steps(w1, ys);
            Steps(w, xs + ys) == (w2, fx1 + fx2)
    decreases |xs|
  {
    if xs == [] {
      assert xs + ys == ys;
      assert [] + Steps(w, ys).1 == Steps(w, ys).1;
    } else {
      assert (xs + ys)[1..] == xs[1..] + ys;
      var (w1, fx1) := Step(w, xs[0]);
      var (w2, fx2) := Steps(w1, xs[1..]);
      StepsConcat(w1, xs[1..], ys);
      assert fx1 + fx2 + Steps(w2, ys).1 == fx1 + (fx2 + Steps(w2, ys).1);
    }
  }

  // One turn of the loop in `run`

  /** What the transaction source wrote into the scratch buffer and the length it returned. */
  datatype Fill = Fill(data: seq<byte>, len: nat) {
    predicate Valid() { |data| <= MAX_TX && len <= MAX_TX }

    /** The source wrote every byte it claims. */
    predicate Honest() { Valid() && len <= |data| }
  }

  /** The scratch buffer after a fill. */
  function Filled(scratch: seq<byte>, f: Fill): (r: seq<byte>)
    requires |scratch| == MAX_TX && f.Valid()
    ensures |r| == MAX_TX
  {
    f.data + scratch[|f.data|..]
  }

  /** The bytes sent do not depend on what the reused buffer held exactly when the source is honest. */
  lemma ScratchDoesNotLeak(f: Fill)
    requires f.Valid()
    ensures f.Honest() <==>
              forall s: seq<byte>, t: seq<byte> :: |s| == |t| == MAX_TX ==>
                Filled(s, f)[..f.len] == Filled(t, f)[..f.len]
  {
    if f.Honest() {
      forall s: seq<byte>, t: seq<byte> | |s| == |t| == MAX_TX
        ensures Filled(s, f)[..f.len] == Filled(t, f)[..f.len]
      {
        assert Filled(s, f)[..f.len] == f.data[..f.len] == Filled(t, f)[..f.len];
      }
    } else {
      var s: seq<byte>, t: seq<byte> := seq(MAX_TX, i => 0), seq(MAX_TX, i => 1);
      var k := |f.data|;
      assert Filled(s, f)[..f.len][k] == 0 && Filled(t, f)[..f.len][k] == 1;
    }
  }

  datatype Turn = Turn(
    job: Option<Job>,
    sent: nat,
    fill: Fill,
    answer: SendAnswer,
    reply: ReapAnswer,
    periodic: Option<ReconnectResp>,
    idle: bool,
    afterIdle: Option<ReconnectResp>)
  {
    predicate Valid() { job.Some? ==> fill.Honest() }
  }

  predicate Periodic(tick: nat) { tick % PERIOD == 0 }

  /** One turn: send if a job was popped, reap, count the turn, take deliveries. */
  function OneTurn(w: Par, t: Turn): (r: (Par, seq<Effect>))
    requires t.Valid()
  {
    var (w1, fx1) := Sending(w, t);
    var (w2, fx2) := Reap(w1, t.reply);
    (Housekeep(w2, t.periodic, t.idle, t.afterIdle), fx1 + fx2)
  }

  /** The sending part of a turn. */
  function Sending(w: Par, t: Turn): (Par, seq<Effect>)
    requires t.Valid()
  {
    if t.job.Some? then SendTo(w, t.job.value, t.sent, t.fill.data[..t.fill.len], t.answer) else (w, [])
  }

  /** The end of a turn: the tick, and the checks for a rebuilt standby. */
  function Housekeep(w: Par, periodic: Option<ReconnectResp>, idle: bool, afterIdle: Option<ReconnectResp>): Par {
    var w1 := w.(tick := (w.tick + 1) % TICKS);
    var w2 := if Periodic(w1.tick) then Deliver(w1, periodic).0 else w1;
    if idle then Deliver(w2, afterIdle).0 else w2
  }

  function RunTurns(w: Par, turns: seq<Turn>): (r: (Par, seq<Effect>))
    requires forall k :: 0 <= k < |turns| ==> turns[k].Valid()
  {
    if turns == [] then (w, [])
    else
      var (w1, fx1) := RunTurns(w, turns[..|turns| - 1]);
      var (w2, fx2) := OneTurn(w1, turns[|turns| - 1]);
      (w2, fx1 + fx2)
  }

  lemma {:induction false} RunTurnsNext(w: Par, turns: seq<Turn>, k: nat)
    requires k < |turns| && forall j :: 0 <= j < |turns| ==> turns[j].Valid()
    ensures var (w1, fx1) := RunTurns(w, turns[..k]);
            && RunTurns(w, turns[..k + 1]).0 == OneTurn(w1, turns[k]).0
            && RunTurns(w, turns[..k + 1]).1 == fx1 + OneTurn(w1, turns[k]).1
  {
    assert turns[..k + 1][..k] == turns[..k];
  }

  // Turns are made of acts

  function HousekeepActs(tick: nat, t: Turn): seq<Act> {
    [DoTick]
    + (if Periodic((tick + 1) % TICKS) then [DoDeliver(t.periodic)] else [])
    + (if t.idle then [DoDeliver(t.afterIdle)] else [])
  }

  function SendActs(t: Turn): seq<Act>
    requires t.Valid()
  {
    if t.job.Some? then [DoSend(t.job.value, t.sent, t.fill.data[..t.fill.len], t.answer)] else []
  }

  function TurnActs(tick: nat, t: Turn): seq<Act>
    requires t.Valid()
  {
    SendActs(t) + [DoReap(t.reply)] + HousekeepActs(tick, t)
  }

  lemma {:induction false} OneStep(w: Par, a: Act)
    ensures Steps(w, [a]).0 == Step(w, a).0 && Steps(w, [a]).1 == Step(w, a).1
  {
    assert [a][1..] == [];
  }

  lemma {:induction false} StepsSnoc(w: Par, acts: seq<Act>, a: Act)
    ensures var (w1, fx1) := Steps(w, acts);
            Steps(w, acts + [a]).0 == Step(w1, a).0 && Steps(w, acts + [a]).1 == fx1 + Step(w1, a).1
  {
    StepsConcat(w, acts, [a]);
    OneStep(Steps(w, acts).0, a);
  }

  lemma {:induction false} HousekeepIsSteps(w: Par, t: Turn)
    ensures Steps(w, HousekeepActs(w.tick, t)).0 == Housekeep(w, t.periodic, t.idle, t.afterIdle)
    ensures Steps(w, HousekeepActs(w.tick, t)).1 == []
  {
    var acts := [DoTick];
    OneStep(w, DoTick);
    if Periodic((w.tick + 1) % TICKS) {
      StepsSnoc(w, acts, DoDeliver(t.periodic));
      acts := acts + [DoDeliver(t.periodic)];
    }
    if t.idle {
      StepsSnoc(w, acts, DoDeliver(t.afterIdle));
      acts := acts + [DoDeliver(t.afterIdle)];
    }
    assert acts == HousekeepActs(w.tick, t);
  }

  lemma {:induction false} SendingIsSteps(w: Par, t: Turn)
    requires t.Valid()
    ensures Steps(w, SendActs(t)).0 == Sending(w, t).0 && Steps(w, SendActs(t)).1 == Sending(w, t).1
  {
    if t.job.Some? { OneStep(w, SendActs(t)[0]); }
  }

  lemma TickUntouched(w: Par, t: Turn)
    requires t.Valid()
    ensures Sending(w, t).0.tick == w.tick && Reap(w, t.reply).0.tick == w.tick
  {
  }

  /** A turn of the loop is a sequence of acts, so what all acts keep all turns keep. */
  lemma {:induction false} TurnIsSteps(w: Par, t: Turn)
    requires t.Valid()
    ensures Steps(w, TurnActs(w.tick, t)).0 == OneTurn(w, t).0
    ensures Steps(w, TurnActs(w.tick, t)).1 == OneTurn(w, t).1
  {
    var w1 := Sending(w, t).0;
    var w2 := Reap(w1, t.reply).0;
    SendingIsSteps(w, t);
    StepsSnoc(w, SendActs(t), DoReap(t.reply));
    TickUntouched(w, t);
    TickUntouched(w1, t);
    HousekeepIsSteps(w2, t);
    StepsConcat(w, SendActs(t) + [DoReap(t.reply)], HousekeepActs(w.tick, t));
  }
}
