/** From a failed connection to a rebuilt standby: the worker's request, the
    reconnect thread's turn, the response channel and the delivery, over every run
    of the system. */
module Recovery {
  import opened Bytes
  import opened Worker
  import opened Moves
  import opened Ledger
  import opened System

  // Requests

  lemma {:induction false} RequestedIs(reqs: seq<ReconnectReq>, fx: seq<Effect>)
    ensures Asks(fx) == [] ==> Requested(reqs, fx) == reqs
    ensures |Asks(fx)| == 1 ==> Requested(reqs, fx) == if |reqs| < REQUESTS then reqs + Asks(fx) else reqs
    decreases |fx|
  {
    if fx != [] {
      RequestedIs(reqs, fx[1..]);
      if fx[0].Asked? {
        assert Asks(fx) == [fx[0].req] + Asks(fx[1..]);
        if |Asks(fx)| == 1 {
          assert Asks(fx) == [fx[0].req];
          RequestedIs(if |reqs| < REQUESTS then reqs + [fx[0].req] else reqs, fx[1..]);
        }
      } else {
        assert Asks(fx) == Asks(fx[1..]);
      }
    }
  }

  /** A worker's move asks for a rebuild exactly when its connection failed and fewer than 64 requests wait;
      the request is then the last of the queue. */
  lemma FailureIsRequested(s: Sys, i: nat, a: Act)
    requires Enabled(s, Worker(i, a))
    ensures Next(s, Worker(i, a)).reqs
         == if Fails(s.provs[i].w, a) && |s.reqs| < 64
            then s.reqs + [ReconnectReq(s.provs[i].w.providerIdx, s.provs[i].w.kind)]
            else s.reqs
  {
    StepFilters(s.provs[i].w, a);
    RequestedIs(s.reqs, Step(s.provs[i].w, a).1);
  }

  // Turns of the reconnect thread

  /** The slot of every provider after a turn: the requested one is filled if it was empty and the build succeeded. */
  lemma TurnFillsSlot(s: Sys, built: bool, i: nat)
    requires SysOk(s) && Enabled(s, Reconnect(built)) && i < |s.provs|
    ensures var req, s' := s.reqs[0], Next(s, Reconnect(built));
            && s'.reqs == s.reqs[1..] && |s'.provs| == |s.provs|
            && s'.provs[i].w == s.provs[i].w && s'.provs[i].book == s.provs[i].book
            && s'.provs[i].slot
               == if built && req.providerIdx == i && !req.kind.LibTpa? && s.provs[i].slot.None?
                  then Some(ReconnectResp(i, NewConn(s.cfg.protocols[i], ConnTag(i, s.serial))))
                  else s.provs[i].slot
  {
    assert s.reqs[0] in s.reqs;
  }

  function Turns(steps: seq<SysStep>): nat {
    if steps == [] then 0 else (if steps[0].Reconnect? then 1 else 0) + Turns(steps[1..])
  }

  lemma StepKeepsQueue(s: Sys, e: SysStep)
    requires SysOk(s) && Enabled(s, e)
    ensures if e.Reconnect? then Next(s, e).reqs == s.reqs[1..] else s.reqs <= Next(s, e).reqs
  {
    if e.Worker? { FailureIsRequested(s, e.i, e.act); }
  }

  /** The queue is served in order: after `m` turns its first `m` requests are gone and the rest still lead it. */
  lemma {:induction false} QueueIsServedInOrder(s: Sys, steps: seq<SysStep>)
    requires SysOk(s) && Run(s, steps) && Turns(steps) <= |s.reqs|
    ensures s.reqs[Turns(steps)..] <= Final(s, steps).reqs
    decreases |steps|
  {
    if steps != [] {
      var e, s1, m := steps[0], Next(s, steps[0]), Turns(steps[1..]);
      StepKeeps(s, e);
      StepKeepsQueue(s, e);
      QueueIsServedInOrder(s1, steps[1..]);
      if e.Reconnect? {
        assert s.reqs[1..][m..] == s.reqs[m + 1..];
      } else {
        assert s.reqs[m..] <= s1.reqs[m..];
      }
    }
  }

  // Channels

  predicate Takes(e: SysStep, i: nat) { e.Worker? && e.i == i && e.act.DoDeliver? }

  lemma StepKeepsSlot(s: Sys, e: SysStep, i: nat)
    requires SysOk(s) && Enabled(s, e) && i < |s.provs| && !Takes(e, i) && s.provs[i].slot.Some?
    ensures |Next(s, e).provs| == |s.provs| && Next(s, e).provs[i].slot == s.provs[i].slot
  {
    if e.Reconnect? { TurnFillsSlot(s, e.built, i); }
  }

  /** What waits in a response channel stays there until its worker takes it. */
  lemma {:induction false} SlotIsKept(s: Sys, steps: seq<SysStep>, i: nat)
    requires SysOk(s) && Run(s, steps) && i < |s.provs| && s.provs[i].slot.Some?
    requires forall e :: e in steps ==> !Takes(e, i)
    ensures SysOk(Final(s, steps)) && |Final(s, steps).provs| == |s.provs|
    ensures Final(s, steps).provs[i].slot == s.provs[i].slot
    decreases |steps|
  {
    if steps != [] {
      assert steps[0] in steps;
      StepKeeps(s, steps[0]);
      StepKeepsSlot(s, steps[0], i);
      SlotIsKept(Next(s, steps[0]), steps[1..], i);
    }
  }

  /** Taking a delivery empties the channel and makes the connection in it the standby. */
  lemma DeliveryIsTaken(s: Sys, i: nat)
    requires i < |s.provs|
    ensures Enabled(s, Worker(i, DoDeliver(s.provs[i].slot)))
    ensures var s' := Next(s, Worker(i, DoDeliver(s.provs[i].slot)));
            && |s'.provs| == |s.provs| && s'.provs[i].slot.None? && s'.provs[i].w.Active() == s.provs[i].w.Active()
            && s'.provs[i].w.Standby()
               == if s.provs[i].slot.Some? then s.provs[i].slot.value.conn else s.provs[i].w.Standby()
  {
    DeliversExactly(s.provs[i].w, s.provs[i].slot);
  }

  // The whole way

  /** The state when the reconnect thread comes to the request: it is at the head of the queue. */
  lemma {:induction false} RequestComesUp(s: Sys, i: nat, a: Act, before: seq<SysStep>)
    requires SysOk(s) && Enabled(s, Worker(i, a)) && Fails(s.provs[i].w, a) && |s.reqs| < 64
    requires Run(Next(s, Worker(i, a)), before) && Turns(before) == |s.reqs|
    ensures var s1 := Final(Next(s, Worker(i, a)), before);
            && SysOk(s1) && s1.cfg == s.cfg && |s1.provs| == |s.provs|
            && s1.reqs != [] && s1.reqs[0] == ReconnectReq(i, s.cfg.kind)
  {
    var s0 := Next(s, Worker(i, a));
    assert ProvOk(s.provs[i], i, s.cfg, s.serial);
    FailureIsRequested(s, i, a);
    StepKeeps(s, Worker(i, a));
    RunKeeps(s0, before);
    QueueIsServedInOrder(s0, before);
    assert s0.reqs[|s.reqs|..] == [ReconnectReq(i, s.cfg.kind)];
  }

  /**
    Over every run: a failure that finds room among the 64 requests, `before` with as
    many turns of the reconnect thread as requests were ahead of it, a turn that
    builds while the channel is empty, and `after` in which the worker does not look
    into its channel. Then the channel holds a connection of this provider, new to
    it, and the worker's next look makes exactly that one its standby.
   */
  lemma {:induction false} FailureIsRepaired(s: Sys, i: nat, a: Act, before: seq<SysStep>, after: seq<SysStep>)
    requires SysOk(s) && !s.cfg.kind.LibTpa?
    requires Enabled(s, Worker(i, a)) && Fails(s.provs[i].w, a) && |s.reqs| < 64
    requires Run(Next(s, Worker(i, a)), before) && Turns(before) == |s.reqs|
    requires i < |Final(Next(s, Worker(i, a)), before).provs|
    requires Final(Next(s, Worker(i, a)), before).provs[i].slot.None?
    requires Enabled(Final(Next(s, Worker(i, a)), before), Reconnect(true)) ==>
               Run(Next(Final(Next(s, Worker(i, a)), before), Reconnect(true)), after)
    requires forall e :: e in after ==> !Takes(e, i)
    ensures var s1 := Final(Next(s, Worker(i, a)), before);
            && Enabled(s1, Reconnect(true))
            && var s2 := Next(s1, Reconnect(true));
               var s3 := Final(s2, after);
               var conn := NewConn(s.cfg.protocols[i], ConnTag(i, s1.serial));
               && conn.tag !in s1.provs[i].book.used
               && |s3.provs| == |s.provs| && s3.provs[i].slot == Some(ReconnectResp(i, conn))
               && Enabled(s3, Worker(i, DoDeliver(s3.provs[i].slot)))
               && Next(s3, Worker(i, DoDeliver(s3.provs[i].slot))).provs[i].w.Standby() == conn
  {
    var s1 := Final(Next(s, Worker(i, a)), before);
    RequestComesUp(s, i, a, before);
    assert ProvOk(s1.provs[i], i, s1.cfg, s1.serial);
    TurnFillsSlot(s1, true, i);
    StepKeeps(s1, Reconnect(true));
    var s2 := Next(s1, Reconnect(true));
    SlotIsKept(s2, after, i);
    DeliveryIsTaken(Final(s2, after), i);
  }
}
