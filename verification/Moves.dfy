/** What a worker's moves amount to, from the answers alone: which frames go out,
    when the pair of connections is swapped, and when a rebuilt one is taken. */
module Moves {
  import opened Bytes
  import opened Worker
  import JsonRpc

  /** The four kinds of error after which the workers give a connection up. */
  predicate GivesUp(e: TransportError) {
    || e == Io(UnexpectedEof) || e == Io(BrokenPipe)
    || e == Io(ConnectionReset) || e == Io(ConnectionAborted)
  }

  /** The answer shows that the active connection is gone. */
  predicate Fails(w: Par, a: Act) {
    match a
    case DoSend(_, _, _, answer) => w.Active().Http? && answer.first.Err? && GivesUp(answer.first.error)
    case DoReap(reply) =>
      if w.Active().Http? then reply.poll.Err? && GivesUp(reply.poll.error) else reply.dead
    case _ => false
  }

  /** Whether the second try, on the connection that stood by, goes out. */
  predicate Retried(w: Par, a: Act) {
    a.DoSend? && Fails(w, a) && w.Standby().Http? && a.answer.retry.Ok?
  }

  function Frames(fx: seq<Effect>): seq<Effect> {
    if fx == [] then [] else (if fx[0].SentOn? then [fx[0]] else []) + Frames(fx[1..])
  }

  function Swaps(fx: seq<Effect>): seq<Effect> {
    if fx == [] then [] else (if fx[0].FailedOver? then [fx[0]] else []) + Swaps(fx[1..])
  }

  function Asks(fx: seq<Effect>): seq<ReconnectReq> {
    if fx == [] then [] else (if fx[0].Asked? then [fx[0].req] else []) + Asks(fx[1..])
  }

  function Reports(fx: seq<Effect>): seq<RawResp> {
    if fx == [] then [] else (if fx[0].Pushed? then [fx[0].resp] else []) + Reports(fx[1..])
  }

  lemma {:induction false} FiltersConcat(a: seq<Effect>, b: seq<Effect>)
    ensures Frames(a + b) == Frames(a) + Frames(b)
    ensures Swaps(a + b) == Swaps(a) + Swaps(b)
    ensures Asks(a + b) == Asks(a) + Asks(b)
    ensures Reports(a + b) == Reports(a) + Reports(b)
    decreases |a|
  {
    if a == [] {
      assert a + b == b;
    } else {
      assert (a + b)[1..] == a[1..] + b && (a + b)[0] == a[0];
      FiltersConcat(a[1..], b);
      Assoc(if a[0].SentOn? then [a[0]] else [], Frames(a[1..]), Frames(b));
      Assoc(if a[0].FailedOver? then [a[0]] else [], Swaps(a[1..]), Swaps(b));
      Assoc(if a[0].Asked? then [a[0].req] else [], Asks(a[1..]), Asks(b));
      Assoc(if a[0].Pushed? then [a[0].resp] else [], Reports(a[1..]), Reports(b));
    }
  }

  lemma FiltersOne(e: Effect)
    ensures Frames([e]) == if e.SentOn? then [e] else []
    ensures Swaps([e]) == if e.FailedOver? then [e] else []
    ensures Asks([e]) == if e.Asked? then [e.req] else []
    ensures Reports([e]) == if e.Pushed? then [e.resp] else []
  {
    assert [e][1..] == [];
  }

  lemma FiltersTwo(x: Effect, y: Effect)
    ensures Frames([x, y]) == (if x.SentOn? then [x] else []) + (if y.SentOn? then [y] else [])
    ensures Swaps([x, y]) == (if x.FailedOver? then [x] else []) + (if y.FailedOver? then [y] else [])
    ensures Asks([x, y]) == (if x.Asked? then [x.req] else []) + (if y.Asked? then [y.req] else [])
    ensures Reports([x, y]) == (if x.Pushed? then [x.resp] else []) + (if y.Pushed? then [y.resp] else [])
  {
    assert [x, y] == [x] + [y];
    FiltersConcat([x], [y]);
    FiltersOne(x);
    FiltersOne(y);
  }

  /** The response owed when a body arrives for a job in flight, or when a QUIC send was 500 ms ago. */
  function Due(w: Par, a: Act): seq<RawResp> {
    if !a.DoReap? then []
    else match w.Active()
         case Http(_) =>
           if a.reply.poll.Ok? && a.reply.poll.value.Some? && w.inflight.Some?
           then [RawResp(w.inflight.value.0.id, w.providerIdx % 65536, w.inflight.value.1, a.reply.settled,
                         JsonRpc.Capped(a.reply.poll.value.value), false)]
           else []
         case Quic(_, inflight, sentAt) =>
           if !a.reply.dead && inflight.Some? && sentAt.Some? && a.reply.now - sentAt.value > 500_000_000
           then [RawResp(inflight.value.0, w.providerIdx % 65536, inflight.value.1, a.reply.settled, [], true)]
           else []
  }

  /** What the effects `fx` amount to, kind by kind. */
  predicate AmountsTo(fx: seq<Effect>, frames: seq<Effect>, swaps: seq<Effect>, asks: seq<ReconnectReq>,
                      reports: seq<RawResp>)
  {
    Frames(fx) == frames && Swaps(fx) == swaps && Asks(fx) == asks && Reports(fx) == reports
  }

  lemma BodyFilters(w: Par, a: ReapAnswer)
    requires w.Active().Http? && a.poll.Ok? && a.poll.value.Some?
    ensures AmountsTo(Reap(w, a).1, [], [], [], Due(w, DoReap(a)))
  {
    var fx := Reap(w, a).1;
    if w.inflight.Some? {
      FiltersTwo(fx[0], fx[1]);
      assert fx == [fx[0], fx[1]];
    } else {
      FiltersOne(fx[0]);
    }
  }

  lemma QuietReap(w: Par, a: ReapAnswer)
    requires w.Active().Quic? && !a.dead
    ensures AmountsTo(Reap(w, a).1, [], [], [], Due(w, DoReap(a)))
  {
    var fx := Reap(w, a).1;
    if fx != [] { FiltersOne(fx[0]); }
  }

  function Over(w: Par): seq<Effect> { [FailedOver(w.Active().tag, w.Standby().tag)] }

  function Ask(w: Par): seq<ReconnectReq> { [ReconnectReq(w.providerIdx, w.kind)] }

  lemma OverFilters(w: Par)
    ensures AmountsTo(Failover(w).1, [], Over(w), Ask(w), [])
    ensures AmountsTo([Broke(w.Active().tag)] + Failover(w).1, [], Over(w), Ask(w), [])
  {
    var over := Failover(w).1;
    FiltersTwo(over[0], over[1]);
    FiltersOne(Broke(w.Active().tag));
    FiltersConcat([Broke(w.Active().tag)], over);
  }

  /** The frame of a send, if it goes out. */
  function FrameOf(w: Par, a: Act): seq<Effect> {
    if !a.DoSend? then []
    else if a.answer.first.Ok? then [SentOn(w.Active().tag, a.job, a.sent, a.answer.now, a.tx)]
    else if Retried(w, a) then [SentOn(w.Standby().tag, a.job, a.sent, a.answer.now, a.tx)]
    else []
  }

  lemma RetryFilters(w: Par, a: Act)
    requires a.DoSend? && Fails(w, a)
    ensures AmountsTo(Retry(Failover(w).0, a.job, a.sent, a.tx, a.answer).1, FrameOf(w, a), [], [], [])
  {
    FiltersOne(Broke(w.Standby().tag));
    FiltersOne(SentOn(w.Standby().tag, a.job, a.sent, a.answer.now, a.tx));
  }

  lemma SendFilters(w: Par, a: Act)
    requires a.DoSend?
    ensures AmountsTo(Step(w, a).1, FrameOf(w, a), if Fails(w, a) then Over(w) else [],
                      if Fails(w, a) then Ask(w) else [], [])
  {
    if Fails(w, a) {
      OverFilters(w);
      RetryFilters(w, a);
      FiltersConcat([Broke(w.Active().tag)] + Failover(w).1, Retry(Failover(w).0, a.job, a.sent, a.tx, a.answer).1);
    } else {
      FiltersOne(SentOn(w.Active().tag, a.job, a.sent, a.answer.now, a.tx));
    }
  }

  lemma ReapFilters(w: Par, a: Act)
    requires a.DoReap?
    ensures AmountsTo(Step(w, a).1, [], if Fails(w, a) then Over(w) else [],
                      if Fails(w, a) then Ask(w) else [], Due(w, a))
  {
    OverFilters(w);
    if w.Active().Http? && a.reply.poll.Ok? && a.reply.poll.value.Some? {
      BodyFilters(w, a.reply);
    } else if w.Active().Quic? && !a.reply.dead {
      QuietReap(w, a.reply);
    }
  }

  lemma StepFilters(w: Par, a: Act)
    ensures AmountsTo(Step(w, a).1, FrameOf(w, a), if Fails(w, a) then Over(w) else [],
                      if Fails(w, a) then Ask(w) else [], Due(w, a))
  {
    if a.DoSend? {
      SendFilters(w, a);
    } else if a.DoReap? {
      ReapFilters(w, a);
    }
  }

  /**
    Which frames a step sends. A popped job goes out once, with its own bytes and
    time stamp: on the active connection if that accepts it, on the one standing by
    if the active one is given up and that accepts it, and otherwise not at all.
    Nothing but a popped job is ever sent.
   */
  lemma SendsExactly(w: Par, a: Act)
    ensures Frames(Step(w, a).1)
         == if !a.DoSend? then []
            else if a.answer.first.Ok? then [SentOn(w.Active().tag, a.job, a.sent, a.answer.now, a.tx)]
            else if Retried(w, a) then [SentOn(w.Standby().tag, a.job, a.sent, a.answer.now, a.tx)]
            else []
    ensures Step(w, a).0.jobsSent
         == w.jobsSent + if a.DoSend? && w.Active().Quic? then 1 else |Frames(Step(w, a).1)|
  {
    StepFilters(w, a);
  }

  /**
    When the pair is swapped. Exactly when the answer shows the active connection
    gone: the one standing by takes its place and it stands by instead, what was in
    flight is dropped, and one rebuild of this provider is asked for. Otherwise both
    stay where they are and nothing is asked.
   */
  lemma FailsOverExactly(w: Par, a: Act)
    requires !a.DoDeliver?
    ensures var w', fx := Step(w, a).0, Step(w, a).1;
            if Fails(w, a) then
              && w'.Active() == w.Standby() && w'.Standby() == w.Active() && w'.dual.active.healthy
              && w'.inflight == (if Retried(w, a) then Some((a.job, a.sent)) else None)
              && Swaps(fx) == [FailedOver(w.Active().tag, w.Standby().tag)]
              && Asks(fx) == [ReconnectReq(w.providerIdx, w.kind)]
            else
              && w'.Active().tag == w.Active().tag && w'.Standby() == w.Standby()
              && Swaps(fx) == [] && Asks(fx) == []
  {
    StepFilters(w, a);
  }

  /** Which responses a step builds: the one that is due, and then nothing is in flight for it any more. */
  lemma ReportsExactly(w: Par, a: Act)
    ensures Reports(Step(w, a).1) == Due(w, a)
    ensures Due(w, a) != [] ==>
              var w' := Step(w, a).0;
              if w.Active().Http? then w' == w.(inflight := None)
              else w'.Active() == w.Active().(inflight := None, sentAt := None) && w'.Standby() == w.Standby()
  {
    StepFilters(w, a);
  }

  /** A delivery installs the connection it carries as a healthy standby, and does nothing else. */
  lemma DeliversExactly(w: Par, resp: Option<ReconnectResp>)
    ensures var w', fx := Step(w, DoDeliver(resp)).0, Step(w, DoDeliver(resp)).1;
            && fx == [] && w'.dual.active == w.dual.active
            && w'.dual.standby == (if resp.Some? then ConnSlot(resp.value.conn, true) else w.dual.standby)
            && w' == w.(dual := w'.dual)
  {
  }

  /** When a turn looks for a rebuilt connection: on every 1024th tick and when idle, the latter last. */
  lemma TurnTakesDelivery(w: Par, t: Turn)
    requires t.Valid()
    ensures var before := Reap(Sending(w, t).0, t.reply).0;
            var w' := OneTurn(w, t).0;
            && w'.tick == (w.tick + 1) % 0x1_0000_0000
            && w'.dual.active == before.dual.active && w'.inflight == before.inflight
            && w'.dual.standby
               == if t.idle && t.afterIdle.Some? then ConnSlot(t.afterIdle.value.conn, true)
                  else if (w.tick + 1) % 0x1_0000_0000 % 1024 == 0 && t.periodic.Some?
                  then ConnSlot(t.periodic.value.conn, true)
                  else before.dual.standby
  {
    TickUntouched(w, t);
    TickUntouched(Sending(w, t).0, t);
  }
}
