/** `ParWorker` of transport/parallel.rs: its fields, the methods that update
    them, and its loop, proved against the transitions of module Worker. */
module Parallel {
  import opened Bytes
  import opened Worker
  import JsonRpc

  class ParWorker {
    const providerIdx: nat
    const kind: ConnKind
    var dual: DualConn
    var inflight: Option<(Job, nat)>
    var tick: nat
    var jobsSent: nat

    function State(): Par
      reads this
    {
      Par(providerIdx, kind, dual, inflight, tick, jobsSent)
    }

    constructor (idx: nat, d: DualConn, k: ConnKind)
      ensures State() == Par(idx, k, d, None, 0, 0)
    {
      providerIdx, kind, dual := idx, k, d;
      inflight, tick, jobsSent := None, 0, 0;
    }

    method DoFailover() returns (fx: seq<Effect>)
      modifies this
      ensures State() == Failover(old(State())).0
      ensures fx == Failover(old(State())).1
    {
      var from, to := dual.active.conn.tag, dual.standby.conn.tag;
      inflight := None;
      dual := dual.Swap();
      fx := [FailedOver(from, to), Asked(ReconnectReq(providerIdx, kind))];
    }

    method SendTo(job: Job, sent: nat, end: nat, scratch: array<byte>, a: SendAnswer) returns (fx: seq<Effect>)
      requires end <= scratch.Length
      modifies this
      ensures State() == Worker.SendTo(old(State()), job, sent, scratch[..end], a).0
      ensures fx == Worker.SendTo(old(State()), job, sent, scratch[..end], a).1
    {
      var tx := scratch[..end];
      fx := [];
      match dual.active.conn {
        case Http(tag) =>
          match a.first {
            case Ok(_) =>
              inflight := Some((job, sent));
              jobsSent := jobsSent + 1;
              fx := [SentOn(tag, job, sent, a.now, tx)];
            case Err(e) =>
              if ConnFailed(e) {
                fx := DoFailover();
                fx := [Broke(tag)] + fx;
                if dual.active.conn.Http? {
                  if a.retry.Ok? {
                    inflight := Some((job, sent));
                    jobsSent := jobsSent + 1;
                    fx := fx + [SentOn(dual.active.conn.tag, job, sent, a.now, tx)];
                  } else if ConnFailed(a.retry.error) {
                    fx := fx + [Broke(dual.active.conn.tag)];
                  }
                }
              }
          }
        case Quic(tag, _, _) =>
          if a.first.Ok? {
            var q := dual.active.conn.(inflight := Some((job.id, sent)), sentAt := Some(a.now));
            dual := dual.(active := dual.active.(conn := q));
            fx := [SentOn(tag, job, sent, a.now, tx)];
          }
          jobsSent := jobsSent + 1;
      }
    }

    method Reap(a: ReapAnswer) returns (fx: seq<Effect>)
      modifies this
      ensures State() == Worker.Reap(old(State()), a).0
      ensures fx == Worker.Reap(old(State()), a).1
    {
      fx := [];
      var failed := false;
      match dual.active.conn {
        case Http(tag) =>
          match a.poll {
            case Ok(Some(body)) =>
              fx := [Answered(tag, body)];
              if inflight.Some? {
                var (job, sent) := inflight.value;
                inflight := None;
                var bytes := JsonRpc.Capped(body);
                fx := fx + [Pushed(tag, RawResp(job.id, providerIdx % U16, sent, a.settled, bytes, false))];
              }
            case Ok(None) =>
            case Err(e) =>
              if ConnFailed(e) {
                failed := true;
                fx := [Broke(tag)];
              }
          }
        case Quic(tag, _, _) =>
          if a.dead {
            failed := true;
          } else if WindowOver(dual.active.conn, a.now) {
            var (id, sent) := dual.active.conn.inflight.value;
            dual := dual.(active := dual.active.(conn := dual.active.conn.(inflight := None, sentAt := None)));
            fx := [Pushed(tag, RawResp(id, providerIdx % U16, sent, a.settled, [], true))];
          }
      }
      if failed {
        var more := DoFailover();
        fx := fx + more;
      }
    }

    method CheckStandbyDelivery(resp: Option<ReconnectResp>)
      modifies this
      ensures State() == Deliver(old(State()), resp).0
    {
      if resp.Some? {
        dual := dual.ReplaceStandby(resp.value.conn);
      }
    }

    /** One turn of `run`. */
    method RunTurn(t: Turn, scratch: array<byte>) returns (fx: seq<Effect>)
      requires t.Valid() && scratch.Length == MAX_TX
      modifies this, scratch
      ensures State() == OneTurn(old(State()), t).0
      ensures fx == OneTurn(old(State()), t).1
    {
      fx := [];
      if t.job.Some? {
        WriteFill(scratch, t.fill);
        assert scratch[..t.fill.len] == t.fill.data[..t.fill.len];
        fx := SendTo(t.job.value, t.sent, t.fill.len, scratch, t.answer);
      }
      var more := Reap(t.reply);
      fx := fx + more;
      tick := (tick + 1) % TICKS;
      if Periodic(tick) {
        CheckStandbyDelivery(t.periodic);
      }
      if t.idle {
        CheckStandbyDelivery(t.afterIdle);
      }
    }

    /** The worker's loop, one turn per element, until it is stopped. */
    method Run(turns: seq<Turn>, scratch: array<byte>) returns (fx: seq<Effect>)
      requires forall k :: 0 <= k < |turns| ==> turns[k].Valid()
      requires scratch.Length == MAX_TX
      modifies this, scratch
      ensures State() == RunTurns(old(State()), turns).0
      ensures fx == RunTurns(old(State()), turns).1
    {
      fx := [];
      for k := 0 to |turns|
        invariant State() == RunTurns(old(State()), turns[..k]).0
        invariant fx == RunTurns(old(State()), turns[..k]).1
      {
        var more := RunTurn(turns[k], scratch);
        fx := fx + more;
        RunTurnsNext(old(State()), turns, k);
      }
      assert turns[..|turns|] == turns;
    }
  }

  /** `source.fill`: the source writes its bytes at the front of the buffer. */
  method WriteFill(scratch: array<byte>, f: Fill)
    requires scratch.Length == MAX_TX && f.Valid()
    modifies scratch
    ensures scratch[..] == Filled(old(scratch[..]), f)
  {
    for k := 0 to |f.data|
      invariant scratch[..] == f.data[..k] + old(scratch[..])[k..]
    {
      scratch[k] := f.data[k];
    }
  }
}
