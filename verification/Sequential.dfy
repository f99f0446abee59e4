/** `SequentialWorker` of transport/sequential.rs: one loop over all providers.
    Its methods are proved against the same transitions as `ParWorker`, provider
    by provider, so a sequential run shown to provider i is a run of worker i. */
module Sequential {
  import opened Bytes
  import opened Worker
  import Parallel
  import JsonRpc

  // Logs of all providers

  type Log = seq<(nat, Effect)>

  /** What happened to provider `i`. */
  function Of(log: Log, i: nat): seq<Effect> {
    if log == [] then []
    else Of(log[..|log| - 1], i) + (if log[|log| - 1].0 == i then [log[|log| - 1].1] else [])
  }

  function Tagged(i: nat, fx: seq<Effect>): (r: Log)
    ensures |r| == |fx|
  {
    seq(|fx|, k requires 0 <= k < |fx| => (i, fx[k]))
  }

  lemma {:induction false} OfConcat(a: Log, b: Log, i: nat)
    ensures Of(a + b, i) == Of(a, i) + Of(b, i)
    decreases |b|
  {
    if b == [] {
      assert a + b == a;
    } else {
      assert (a + b)[..|a + b| - 1] == a + b[..|b| - 1];
      OfConcat(a, b[..|b| - 1], i);
    }
  }

  lemma {:induction false} OfTagged(j: nat, fx: seq<Effect>, i: nat)
    ensures Of(Tagged(j, fx), i) == if i == j then fx else []
    decreases |fx|
  {
    if fx != [] {
      var init := fx[..|fx| - 1];
      OfTagged(j, init, i);
      assert Tagged(j, fx)[..|fx| - 1] == Tagged(j, init);
      assert fx == init + [fx[|fx| - 1]];
    }
  }

  /** Logging the effects of one provider. */
  lemma {:induction false} OfAppend(log: Log, j: nat, fx: seq<Effect>, i: nat)
    ensures Of(log + Tagged(j, fx), i) == if i == j then Of(log, i) + fx else Of(log, i)
  {
    OfConcat(log, Tagged(j, fx), i);
    OfTagged(j, fx, i);
  }

  // Turns of the sequential loop

  datatype SeqTurn = SeqTurn(
    job: Option<Job>,
    sent: nat,
    fills: seq<Fill>,
    answers: seq<SendAnswer>,
    replies: seq<ReapAnswer>,
    periodic: seq<Option<ReconnectResp>>,
    idle: bool,
    afterIdle: seq<Option<ReconnectResp>>)
  {
    predicate Valid(n: nat) {
      && |fills| == |answers| == |replies| == |periodic| == |afterIdle| == n
      && (job.Some? ==> forall i :: 0 <= i < n ==> fills[i].Honest())
      && Routed(periodic) && Routed(afterIdle)
    }

    /** The turn as provider `i` sees it. */
    function For(i: nat): (r: Turn)
      requires exists n: nat :: i < n && Valid(n)
      ensures r.Valid()
    {
      Turn(job, sent, fills[i], answers[i], replies[i], periodic[i], idle, afterIdle[i])
    }
  }

  /** Channel `i` carries connections of provider `i` (Guarantees.ChannelsAreRouted). */
  predicate Routed(resps: seq<Option<ReconnectResp>>) {
    forall i :: 0 <= i < |resps| && resps[i].Some? ==> resps[i].value.providerIdx == i
  }

  function TurnsFor(turns: seq<SeqTurn>, n: nat, i: nat): (r: seq<Turn>)
    requires i < n && forall k :: 0 <= k < |turns| ==> turns[k].Valid(n)
    ensures |r| == |turns|
    ensures forall k :: 0 <= k < |r| ==> r[k].Valid() && r[k] == turns[k].For(i)
  {
    seq(|turns|, k requires 0 <= k < |turns| => turns[k].For(i))
  }

  lemma {:induction false} OneMoreTurn(start: Par, turns: seq<Turn>, k: nat, w: Par, fx: seq<Effect>, w': Par,
                                       more: seq<Effect>)
    requires k < |turns| && forall i :: 0 <= i < |turns| ==> turns[i].Valid()
    requires w == RunTurns(start, turns[..k]).0 && fx == RunTurns(start, turns[..k]).1
    requires w' == OneTurn(w, turns[k]).0 && more == OneTurn(w, turns[k]).1
    ensures w' == RunTurns(start, turns[..k + 1]).0 && fx + more == RunTurns(start, turns[..k + 1]).1
  {
    RunTurnsNext(start, turns, k);
  }

  class SequentialWorker {
    const kind: ConnKind
    var conns: seq<DualConn>
    var inflight: seq<Option<(Job, nat)>>
    var tick: nat
    var jobsSent: seq<nat>

    predicate Valid()
      reads this
    {
      |conns| == |inflight| == |jobsSent|
    }

    /** What provider `i` has of this worker. */
    function At(i: nat): Par
      requires Valid() && i < |conns|
      reads this
    {
      Par(i, kind, conns[i], inflight[i], tick, jobsSent[i])
    }

    constructor (duals: seq<DualConn>, k: ConnKind)
      ensures Valid() && conns == duals
      ensures forall i :: 0 <= i < |duals| ==> At(i) == Par(i, k, duals[i], None, 0, 0)
    {
      kind, conns := k, duals;
      inflight := seq(|duals|, i => None);
      jobsSent := seq(|duals|, i => 0);
      tick := 0;
    }

    method DoFailover(i: nat) returns (fx: seq<Effect>)
      requires Valid() && i < |conns|
      modifies this
      ensures Valid() && |conns| == old(|conns|)
      ensures At(i) == Failover(old(At(i))).0
      ensures fx == Failover(old(At(i))).1
      ensures forall j :: 0 <= j < |conns| && j != i ==> At(j) == old(At(j))
    {
      var from, to := conns[i].active.conn.tag, conns[i].standby.conn.tag;
      inflight := inflight[i := None];
      conns := conns[i := conns[i].Swap()];
      fx := [FailedOver(from, to), Asked(ReconnectReq(i, kind))];
    }

    method SendTo(i: nat, job: Job, sent: nat, end: nat, scratch: array<byte>, a: SendAnswer)
      returns (fx: seq<Effect>)
      requires Valid() && i < |conns| && end <= scratch.Length
      modifies this
      ensures Valid() && |conns| == old(|conns|)
      ensures At(i) == Worker.SendTo(old(At(i)), job, sent, scratch[..end], a).0
      ensures fx == Worker.SendTo(old(At(i)), job, sent, scratch[..end], a).1
      ensures forall j :: 0 <= j < |conns| && j != i ==> At(j) == old(At(j))
    {
      var tx := scratch[..end];
      fx := [];
      match conns[i].active.conn {
        case Http(tag) =>
          match a.first {
            case Ok(_) =>
              inflight := inflight[i := Some((job, sent))];
              jobsSent := jobsSent[i := jobsSent[i] + 1];
              fx := [SentOn(tag, job, sent, a.now, tx)];
            case Err(e) =>
              if ConnFailed(e) {
                fx := DoFailover(i);
                fx := [Broke(tag)] + fx;
                if conns[i].active.conn.Http? {
                  if a.retry.Ok? {
                    inflight := inflight[i := Some((job, sent))];
                    jobsSent := jobsSent[i := jobsSent[i] + 1];
                    fx := fx + [SentOn(conns[i].active.conn.tag, job, sent, a.now, tx)];
                  } else if ConnFailed(a.retry.error) {
                    fx := fx + [Broke(conns[i].active.conn.tag)];
                  }
                }
              }
          }
        case Quic(tag, _, _) =>
          if a.first.Ok? {
            var q := conns[i].active.conn.(inflight := Some((job.id, sent)), sentAt := Some(a.now));
            conns := conns[i := conns[i].(active := conns[i].active.(conn := q))];
            fx := [SentOn(tag, job, sent, a.now, tx)];
          }
          jobsSent := jobsSent[i := jobsSent[i] + 1];
      }
    }

    method Reap(i: nat, pid: nat, a: ReapAnswer) returns (fx: seq<Effect>)
      requires Valid() && i < |conns| && pid == i % U16
      modifies this
      ensures Valid() && |conns| == old(|conns|)
      ensures At(i) == Worker.Reap(old(At(i)), a).0
      ensures fx == Worker.Reap(old(At(i)), a).1
      ensures forall j :: 0 <= j < |conns| && j != i ==> At(j) == old(At(j))
    {
      fx := [];
      var failed := false;
      match conns[i].active.conn {
        case Http(tag) =>
          match a.poll {
            case Ok(Some(body)) =>
              fx := [Answered(tag, body)];
              if inflight[i].Some? {
                var (job, sent) := inflight[i].value;
                inflight := inflight[i := None];
                fx := fx + [Pushed(tag, RawResp(job.id, pid, sent, a.settled, JsonRpc.Capped(body), false))];
              }
            case Ok(None) =>
            case Err(e) =>
              if ConnFailed(e) {
                failed := true;
                fx := [Broke(tag)];
              }
          }
        case Quic(tag, _, _) =>
          if a.dead {
            failed := true;
          } else if WindowOver(conns[i].active.conn, a.now) {
            var (id, sent) := conns[i].active.conn.inflight.value;
            var q := conns[i].active.conn.(inflight := None, sentAt := None);
            conns := conns[i := conns[i].(active := conns[i].active.(conn := q))];
            fx := [Pushed(tag, RawResp(id, pid, sent, a.settled, [], true))];
          }
      }
      if failed {
        var more := DoFailover(i);
        fx := fx + more;
      }
    }

    /** Each delivery goes to the provider it names. */
    method CheckStandbyDeliveries(resps: seq<Option<ReconnectResp>>)
      requires Valid() && |resps| == |conns| && Routed(resps)
      modifies this
      ensures Valid() && |conns| == old(|conns|)
      ensures forall j :: 0 <= j < |conns| ==> At(j) == Deliver(old(At(j)), resps[j]).0
    {
      for i := 0 to |resps|
        invariant Valid() && |conns| == old(|conns|)
        invariant forall j :: 0 <= j < i ==> At(j) == Deliver(old(At(j)), resps[j]).0
        invariant forall j :: i <= j < |conns| ==> At(j) == old(At(j))
      {
        if resps[i].Some? {
          var k := resps[i].value.providerIdx;
          conns := conns[k := conns[k].ReplaceStandby(resps[i].value.conn)];
        }
      }
    }

    /** Fills the scratch buffer for provider `i` and sends. */
    method FillAndSend(i: nat, t: SeqTurn, scratch: array<byte>) returns (fx: seq<Effect>)
      requires Valid() && i < |conns| && t.Valid(|conns|) && t.job.Some? && scratch.Length == MAX_TX
      modifies this, scratch
      ensures Valid() && |conns| == old(|conns|)
      ensures At(i) == Sending(old(At(i)), t.For(i)).0 && fx == Sending(old(At(i)), t.For(i)).1
      ensures forall j :: 0 <= j < |conns| && j != i ==> At(j) == old(At(j))
    {
      Parallel.WriteFill(scratch, t.fills[i]);
      assert scratch[..t.fills[i].len] == t.fills[i].data[..t.fills[i].len];
      fx := SendTo(i, t.job.value, t.sent, t.fills[i].len, scratch, t.answers[i]);
    }

    /** A popped job goes to every provider, with one time stamp and one scratch buffer. */
    method FanOut(t: SeqTurn, scratch: array<byte>) returns (log: Log)
      requires Valid() && t.Valid(|conns|) && t.job.Some? && scratch.Length == MAX_TX
      modifies this, scratch
      ensures Valid() && |conns| == old(|conns|)
      ensures forall j :: 0 <= j < |conns| ==>
                At(j) == Sending(old(At(j)), t.For(j)).0 && Of(log, j) == Sending(old(At(j)), t.For(j)).1
    {
      log := [];
      for i := 0 to |conns|
        invariant Valid() && |conns| == old(|conns|)
        invariant forall j :: 0 <= j < i ==>
                    At(j) == Sending(old(At(j)), t.For(j)).0 && Of(log, j) == Sending(old(At(j)), t.For(j)).1
        invariant forall j :: i <= j < |conns| ==> At(j) == old(At(j)) && Of(log, j) == []
      {
        ghost var before := log;
        var fx := FillAndSend(i, t, scratch);
        log := log + Tagged(i, fx);
        forall j | 0 <= j < |conns| ensures Of(log, j) == if i == j then fx else Of(before, j) {
          OfAppend(before, i, fx, j);
        }
      }
    }

    method ReapAll(replies: seq<ReapAnswer>) returns (log: Log)
      requires Valid() && |replies| == |conns|
      modifies this
      ensures Valid() && |conns| == old(|conns|)
      ensures forall j :: 0 <= j < |conns| ==>
                At(j) == Worker.Reap(old(At(j)), replies[j]).0 && Of(log, j) == Worker.Reap(old(At(j)), replies[j]).1
    {
      log := [];
      for i := 0 to |conns|
        invariant Valid() && |conns| == old(|conns|)
        invariant forall j :: 0 <= j < i ==>
                    && At(j) == Worker.Reap(old(At(j)), replies[j]).0
                    && Of(log, j) == Worker.Reap(old(At(j)), replies[j]).1
        invariant forall j :: i <= j < |conns| ==> At(j) == old(At(j)) && Of(log, j) == []
      {
        ghost var before := log;
        var fx := Reap(i, i % U16, replies[i]);
        log := log + Tagged(i, fx);
        forall j | 0 <= j < |conns| ensures Of(log, j) == if i == j then fx else Of(before, j) {
          OfAppend(before, i, fx, j);
        }
      }
    }

    /** A turn of the sequential loop is, for every provider, a turn of its own worker. */
    method RunTurn(t: SeqTurn, scratch: array<byte>) returns (log: Log)
      requires Valid() && t.Valid(|conns|) && scratch.Length == MAX_TX
      modifies this, scratch
      ensures Valid() && |conns| == old(|conns|)
      ensures forall j :: 0 <= j < |conns| ==>
                At(j) == OneTurn(old(At(j)), t.For(j)).0 && Of(log, j) == OneTurn(old(At(j)), t.For(j)).1
    {
      log := [];
      if t.job.Some? {
        log := FanOut(t, scratch);
      }
      assert forall j :: 0 <= j < |conns| ==>
               At(j) == Sending(old(At(j)), t.For(j)).0 && Of(log, j) == Sending(old(At(j)), t.For(j)).1;
      var more := ReapAll(t.replies);
      forall j: nat ensures Of(log + more, j) == Of(log, j) + Of(more, j) { OfConcat(log, more, j); }
      log := log + more;
      tick := (tick + 1) % TICKS;
      if Periodic(tick) {
        CheckStandbyDeliveries(t.periodic);
      }
      if t.idle {
        CheckStandbyDeliveries(t.afterIdle);
      }
    }

    /** After `k` turns each provider is where its own worker would be, starting from `start`. */
    ghost predicate Follows(start: seq<Par>, turns: seq<SeqTurn>, k: nat, log: Log)
      reads this
      requires k <= |turns| && forall i :: 0 <= i < |turns| ==> turns[i].Valid(|start|)
    {
      && Valid() && |conns| == |start|
      && forall j :: 0 <= j < |start| ==>
           && At(j) == RunTurns(start[j], TurnsFor(turns, |start|, j)[..k]).0
           && Of(log, j) == RunTurns(start[j], TurnsFor(turns, |start|, j)[..k]).1
    }

    method NextTurn(ghost start: seq<Par>, turns: seq<SeqTurn>, k: nat, before: Log, scratch: array<byte>)
      returns (log: Log)
      requires k < |turns| && scratch.Length == MAX_TX
      requires forall i :: 0 <= i < |turns| ==> turns[i].Valid(|start|)
      requires Follows(start, turns, k, before)
      modifies this, scratch
      ensures Follows(start, turns, k + 1, log)
    {
      var more := RunTurn(turns[k], scratch);
      log := before + more;
      forall j | 0 <= j < |start|
        ensures At(j) == RunTurns(start[j], TurnsFor(turns, |start|, j)[..k + 1]).0
        ensures Of(log, j) == RunTurns(start[j], TurnsFor(turns, |start|, j)[..k + 1]).1
      {
        OfConcat(before, more, j);
        OneMoreTurn(start[j], TurnsFor(turns, |start|, j), k, old(At(j)), Of(before, j), At(j), Of(more, j));
      }
    }

    /**
      Simulation: over any number of turns, what the sequential worker does for
      provider j is exactly what a parallel worker for j does on the same turns.
     */
    method Run(turns: seq<SeqTurn>, scratch: array<byte>) returns (log: Log)
      requires Valid() && scratch.Length == MAX_TX
      requires forall k :: 0 <= k < |turns| ==> turns[k].Valid(|conns|)
      modifies this, scratch
      ensures Valid() && |conns| == old(|conns|)
      ensures forall j :: 0 <= j < |conns| ==>
                && At(j) == RunTurns(old(At(j)), TurnsFor(turns, |conns|, j)).0
                && Of(log, j) == RunTurns(old(At(j)), TurnsFor(turns, |conns|, j)).1
    {
      log := [];
      ghost var start := seq(|conns|, j requires 0 <= j < |conns| reads this requires Valid() => At(j));
      for k := 0 to |turns|
        invariant |start| == old(|conns|) && Follows(start, turns, k, log)
      {
        log := NextTurn(start, turns, k, log, scratch);
      }
      assert forall j :: 0 <= j < |start| ==> TurnsFor(turns, |start|, j)[..|turns|] == TurnsFor(turns, |start|, j);
    }
  }
}
