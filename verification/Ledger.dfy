/** Bookkeeping for one provider: what its connections have accepted and not yet
    answered, which of them have failed, and the history of its sends and
    responses, all computed from the effects the worker reports. */
module Ledger {
  import opened Bytes
  import opened Worker
  import JsonRpc

  datatype Protocol = HttpProtocol | QuicProtocol

  const RESULT_RING: nat := 256

  /** A successful send: the pop it belongs to, the job, its time stamp, the connection, the clock and the bytes. */
  datatype SendRec = SendRec(pop: nat, job: Job, sent: nat, conn: ConnTag, at: nat, tx: seq<byte>)

  /** A response handed to the result ring, with the number of the send it names. */
  datatype PushRec = PushRec(send: nat, resp: RawResp)

  datatype Book = Book(
    protocol: Protocol,
    failed: set<ConnTag>,             // connections that will never accept or answer again
    open: map<ConnTag, seq<nat>>,     // sends accepted by a connection and not yet answered
    answers: map<nat, seq<byte>>,     // the whole body that answered a send
    pops: nat,
    sends: seq<SendRec>,
    cur: Option<nat>,                 // the send the in-flight slot names
    quic: map<ConnTag, nat>,          // the send a QUIC connection has in flight
    pushes: seq<PushRec>,             // every response built, in order
    kept: seq<PushRec>,               // those the ring had room for
    ring: seq<RawResp>,
    superseded: nat,
    lost: nat,
    used: set<ConnTag>,               // connections that were ever active
    out: set<ConnTag>)                // connections that were swapped out
  {
    function Open(t: ConnTag): seq<nat> { if t in open then open[t] else [] }
  }

  function One(o: Option<nat>): nat { if o.Some? then 1 else 0 }

  function Note(b: Book, e: Effect): Book {
    match e
    case SentOn(tag, job, sent, at, tx) =>
      var k := |b.sends|;
      var b1 := b.(sends := b.sends + [SendRec(b.pops, job, sent, tag, at, tx)]);
      if b.protocol.HttpProtocol?
      then b1.(cur := Some(k), superseded := b.superseded + One(b.cur), open := b.open[tag := b.Open(tag) + [k]])
      else b1.(quic := b.quic[tag := k])
    case Broke(tag) => b.(failed := b.failed + {tag})
    case FailedOver(from, to) =>
      b.(cur := None, lost := b.lost + One(b.cur), out := b.out + {from}, used := b.used + {to})
    case Asked(_) => b
    case Answered(tag, body) =>
      if b.Open(tag) == [] then b
      else b.(open := b.open[tag := b.Open(tag)[1..]], answers := b.answers[b.Open(tag)[0] := body])
    case Pushed(tag, resp) =>
      var k := if b.protocol.HttpProtocol? then b.cur else if tag in b.quic then Some(b.quic[tag]) else None;
      if k.None? then b
      else
        var rec := PushRec(k.value, resp);
        var b1 := b.(pushes := b.pushes + [rec], cur := None, quic := b.quic - {tag});
        if |b.ring| < RESULT_RING then b1.(ring := b.ring + [resp], kept := b.kept + [rec]) else b1
  }

  function NoteAll(b: Book, fx: seq<Effect>): Book
    decreases |fx|
  {
    if fx == [] then b else NoteAll(Note(b, fx[0]), fx[1..])
  }

  lemma {:induction false} NoteConcat(b: Book, xs: seq<Effect>, ys: seq<Effect>)
    ensures NoteAll(b, xs + ys) == NoteAll(NoteAll(b, xs), ys)
    decreases |xs|
  {
    if xs == [] {
      assert xs + ys == ys;
    } else {
      assert (xs + ys)[1..] == xs[1..] + ys;
      NoteConcat(Note(b, xs[0]), xs[1..], ys);
    }
  }

  lemma {:induction false} NoteOne(b: Book, e: Effect)
    ensures NoteAll(b, [e]) == Note(b, e)
  {
    assert [e][1..] == [];
  }

  // What always holds of a worker and its book

  /** Both slots hold different connections of the provider's protocol; a used standby was swapped out failed. */
  ghost predicate SlotsOk(w: Par, b: Book) {
    && w.Active().tag != w.Standby().tag
    && w.Active().Http? == w.Standby().Http? == b.protocol.HttpProtocol?
    && w.Active().tag in b.used
    && (w.Standby().tag in b.used ==> w.Standby().tag in b.out)
    && b.out <= b.failed * b.used
    && b.open.Keys <= b.used && b.quic.Keys <= b.used
  }

  function LastPush(b: Book): int {
    if b.pushes == [] then -1 else b.pushes[|b.pushes| - 1].send
  }

  /** The response names the send it is recorded for. */
  predicate Names(r: PushRec, sends: seq<SendRec>, pid: nat) {
    && r.send < |sends|
    && r.resp.job == sends[r.send].job.id
    && r.resp.sentTsc == sends[r.send].sent
    && r.resp.provider == pid
  }

  /** Sends in pop order, responses in send order, each response naming its send. */
  ghost predicate LogOk(b: Book, pid: nat) {
    && (forall k :: 0 <= k < |b.sends| ==> b.sends[k].pop <= b.pops)
    && (forall j, k :: 0 <= j < k < |b.sends| ==> b.sends[j].pop < b.sends[k].pop)
    && (forall k :: 0 <= k < |b.pushes| ==> Names(b.pushes[k], b.sends, pid))
    && (forall j, k :: 0 <= j < k < |b.pushes| ==> b.pushes[j].send < b.pushes[k].send)
    && (forall k :: 0 <= k < |b.kept| ==> b.kept[k] in b.pushes)
    && (forall j, k :: 0 <= j < k < |b.kept| ==> b.kept[j].send < b.kept[k].send)
  }

  /** The in-flight slot of an HTTP worker names its latest send, which is on the active connection. */
  ghost predicate HttpOk(w: Par, b: Book) {
    && b.quic == map[]
    && b.cur.Some? == w.inflight.Some?
    && (b.cur.Some? ==>
          && LastPush(b) < b.cur.value < |b.sends|
          && w.inflight.value == (b.sends[b.cur.value].job, b.sends[b.cur.value].sent)
          && b.sends[b.cur.value].conn == w.Active().tag)
  }

  /** A QUIC connection's slot names the latest send on that connection. */
  ghost predicate QuicSlotOk(c: ConnState, b: Book)
    requires c.Quic?
  {
    && c.inflight.Some? == c.sentAt.Some? == (c.tag in b.quic)
    && (c.tag in b.quic ==>
          var k := b.quic[c.tag];
          && k < |b.sends|
          && c.inflight.value == (b.sends[k].job.id, b.sends[k].sent)
          && c.sentAt.value == b.sends[k].at
          && b.sends[k].conn == c.tag
          && forall j :: k < j < |b.sends| ==> b.sends[j].conn != c.tag)
  }

  ghost predicate QuicOk(w: Par, b: Book)
    requires w.Active().Quic? && w.Standby().Quic?
  {
    && w.inflight == None && b.cur == None
    && QuicSlotOk(w.Active(), b) && QuicSlotOk(w.Standby(), b)
    && (w.Active().tag in b.quic && w.Active().tag !in b.failed ==> LastPush(b) < b.quic[w.Active().tag])
  }

  ghost predicate Ascending(open: map<ConnTag, seq<nat>>) {
    forall t, i, j :: t in open && 0 <= i < j < |open[t]| ==> open[t][i] < open[t][j]
  }

  /** What each connection still owes, in the order it accepted it. */
  ghost predicate OpenOk(w: Par, b: Book) {
    && (forall t :: t in b.open ==> forall x :: x in b.open[t] ==> x < |b.sends|)
    && Ascending(b.open)
    && (w.Standby().tag !in b.failed ==> b.Open(w.Standby().tag) == [])
    && (b.cur.Some? && w.Active().tag !in b.failed ==>
          var o := b.Open(w.Active().tag);
          o != [] && o[|o| - 1] == b.cur.value)
  }

  /** Every successful HTTP send is accounted for once. */
  ghost predicate CountOk(w: Par, b: Book) {
    b.protocol.HttpProtocol? ==>
      && w.jobsSent == |b.sends|
      && |b.sends| == |b.pushes| + b.superseded + b.lost + One(b.cur)
  }

  ghost predicate BookOk(w: Par, b: Book) {
    && SlotsOk(w, b)
    && LogOk(b, w.Pid())
    && (if b.protocol.HttpProtocol? then HttpOk(w, b) else QuicOk(w, b))
    && OpenOk(w, b)
    && CountOk(w, b)
  }

  /** The pop now under way has led to no send yet. */
  ghost predicate PopIsFresh(b: Book) {
    forall k :: 0 <= k < |b.sends| ==> b.sends[k].pop < b.pops
  }

  // Each elementary change keeps it

  lemma KeepsPop(w: Par, b: Book)
    requires BookOk(w, b)
    ensures BookOk(w, b.(pops := b.pops + 1)) && PopIsFresh(b.(pops := b.pops + 1))
  {
    var b' := b.(pops := b.pops + 1);
    assert b'.Open(w.Active().tag) == b.Open(w.Active().tag);
    assert b'.Open(w.Standby().tag) == b.Open(w.Standby().tag);
  }

  lemma KeepsBroke(w: Par, b: Book, t: ConnTag)
    requires BookOk(w, b)
    ensures BookOk(w, Note(b, Broke(t)))
    ensures PopIsFresh(b) ==> PopIsFresh(Note(b, Broke(t)))
  {
    var b' := Note(b, Broke(t));
    assert b'.Open(w.Active().tag) == b.Open(w.Active().tag);
    assert b'.Open(w.Standby().tag) == b.Open(w.Standby().tag);
  }

  lemma {:induction false} FailoverNotes(w: Par, b: Book)
    ensures NoteAll(b, Failover(w).1) == Note(b, FailedOver(w.Active().tag, w.Standby().tag))
  {
    var e, a := FailedOver(w.Active().tag, w.Standby().tag), Asked(ReconnectReq(w.providerIdx, w.kind));
    assert [e, a] == [e] + [a];
    NoteConcat(b, [e], [a]);
    NoteOne(b, e);
    NoteOne(Note(b, e), a);
  }

  lemma {:induction false} KeepsFailover(w: Par, b: Book)
    requires BookOk(w, b) && w.Active().tag in b.failed
    ensures BookOk(Failover(w).0, NoteAll(b, Failover(w).1))
    ensures PopIsFresh(b) ==> PopIsFresh(NoteAll(b, Failover(w).1))
    ensures NoteAll(b, Failover(w).1).failed == b.failed
  {
    FailoverNotes(w, b);
    KeepsSwap(w, b);
  }

  lemma KeepsSwap(w: Par, b: Book)
    requires BookOk(w, b) && w.Active().tag in b.failed
    ensures BookOk(w.(inflight := None, dual := w.dual.Swap()), Note(b, FailedOver(w.Active().tag, w.Standby().tag)))
  {
    var b' := Note(b, FailedOver(w.Active().tag, w.Standby().tag));
    assert b'.Open(w.Active().tag) == b.Open(w.Active().tag);
  }

  /** The lists of what connections owe stay ordered when one accepts a new send. */
  lemma OpenGrows(b: Book, t: ConnTag)
    requires forall u :: u in b.open ==> forall x :: x in b.open[u] ==> x < |b.sends|
    requires Ascending(b.open)
    ensures var open := b.open[t := b.Open(t) + [|b.sends|]];
            && (forall u :: u in open ==> forall x :: x in open[u] ==> x < |b.sends| + 1)
            && Ascending(open)
  {
    var k, open := |b.sends|, b.open[t := b.Open(t) + [|b.sends|]];
    forall i, j | 0 <= i < j < |open[t]| ensures open[t][i] < open[t][j] {
      assert open[t][i] == b.Open(t)[i];
      assert b.Open(t)[i] in b.Open(t);
    }
  }

  lemma KeepsRecord(w: Par, b: Book, job: Job, sent: nat, at: nat, tx: seq<byte>)
    requires BookOk(w, b) && PopIsFresh(b) && b.protocol.HttpProtocol?
    ensures BookOk(Record(w, job, sent), Note(b, SentOn(w.Active().tag, job, sent, at, tx)))
  {
    var b' := Note(b, SentOn(w.Active().tag, job, sent, at, tx));
    OpenGrows(b, w.Active().tag);
    assert b'.Open(w.Standby().tag) == b.Open(w.Standby().tag);
  }

  lemma KeepsQuicSend(w: Par, b: Book, job: Job, sent: nat, at: nat, tx: seq<byte>)
    requires BookOk(w, b) && PopIsFresh(b) && b.protocol.QuicProtocol?
    ensures var c := w.Active().(inflight := Some((job.id, sent)), sentAt := Some(at));
            BookOk(w.(jobsSent := w.jobsSent + 1, dual := w.dual.(active := w.dual.active.(conn := c))),
               Note(b, SentOn(w.Active().tag, job, sent, at, tx)))
  {
    var b' := Note(b, SentOn(w.Active().tag, job, sent, at, tx));
    assert b'.Open(w.Standby().tag) == b.Open(w.Standby().tag);
    assert |b'.sends| == |b.sends| + 1;
  }

  /** A QUIC send that failed still counts as a job. */
  lemma KeepsQuicMiss(w: Par, b: Book)
    requires BookOk(w, b) && b.protocol.QuicProtocol?
    ensures BookOk(w.(jobsSent := w.jobsSent + 1), b)
  {
  }

  /** The lists of what connections owe stay ordered when one answers. */
  lemma KeepsAnswered(w: Par, b: Book, body: seq<byte>)
    requires BookOk(w, b) && b.protocol.HttpProtocol? && b.cur.None?
    ensures BookOk(w, Note(b, Answered(w.Active().tag, body)))
  {
    var t := w.Active().tag;
    if b.Open(t) == [] { return; }
    var b' := Note(b, Answered(t, body));
    assert b'.Open(w.Standby().tag) == b.Open(w.Standby().tag);
    OpenShrinks(b, t);
  }

  lemma OpenShrinks(b: Book, t: ConnTag)
    requires t in b.open && b.open[t] != []
    requires forall u :: u in b.open ==> forall x :: x in b.open[u] ==> x < |b.sends|
    requires Ascending(b.open)
    ensures var open := b.open[t := b.open[t][1..]];
            && (forall u :: u in open ==> forall x :: x in open[u] ==> x < |b.sends|)
            && Ascending(open)
  {
    var open := b.open[t := b.open[t][1..]];
    forall u, x | u in open && x in open[u] ensures x < |b.sends| {
      assert x in b.open[u];
    }
  }

  // Responses

  /** What the ring took never runs ahead of what was built. */
  lemma KeptBelow(b: Book, pid: nat, k: nat)
    requires LogOk(b, pid) && k < |b.kept|
    ensures b.kept[k].send <= LastPush(b)
  {
    assert b.kept[k] in b.pushes;
    var j :| 0 <= j < |b.pushes| && b.pushes[j] == b.kept[k];
    assert j < |b.pushes| - 1 ==> b.pushes[j].send < b.pushes[|b.pushes| - 1].send;
  }

  /** A response naming a later send than all before extends the log. */
  lemma LogGrows(b: Book, pid: nat, rec: PushRec, b': Book)
    requires LogOk(b, pid) && Names(rec, b.sends, pid) && LastPush(b) < rec.send
    requires b'.pushes == b.pushes + [rec] && b'.sends == b.sends && b'.pops == b.pops
    requires b'.kept == b.kept || b'.kept == b.kept + [rec]
    ensures LogOk(b', pid)
  {
    forall k | 0 <= k < |b.kept| ensures b.kept[k].send < rec.send && b.kept[k] in b'.pushes {
      KeptBelow(b, pid, k);
    }
    forall k | 0 <= k < |b.pushes| ensures b.pushes[k].send < rec.send {
      assert k < |b.pushes| - 1 ==> b.pushes[k].send < b.pushes[|b.pushes| - 1].send;
    }
    assert rec in b'.pushes;
  }

  lemma KeepsHttpPush(w: Par, b: Book, resp: RawResp)
    requires BookOk(w, b) && b.protocol.HttpProtocol? && b.cur.Some?
    requires Names(PushRec(b.cur.value, resp), b.sends, w.Pid())
    ensures BookOk(w.(inflight := None), Note(b, Pushed(w.Active().tag, resp)))
  {
    var b' := Note(b, Pushed(w.Active().tag, resp));
    LogGrows(b, w.Pid(), PushRec(b.cur.value, resp), b');
    assert b'.Open(w.Standby().tag) == b.Open(w.Standby().tag);
  }

  lemma KeepsQuicPush(w: Par, b: Book, resp: RawResp)
    requires BookOk(w, b) && b.protocol.QuicProtocol?
    requires w.Active().tag in b.quic && w.Active().tag !in b.failed
    requires Names(PushRec(b.quic[w.Active().tag], resp), b.sends, w.Pid())
    ensures var c := w.Active().(inflight := None, sentAt := None);
            BookOk(w.(dual := w.dual.(active := w.dual.active.(conn := c))), Note(b, Pushed(w.Active().tag, resp)))
  {
    var b' := Note(b, Pushed(w.Active().tag, resp));
    LogGrows(b, w.Pid(), PushRec(b.quic[w.Active().tag], resp), b');
    assert b'.Open(w.Standby().tag) == b.Open(w.Standby().tag);
  }

  lemma AnswerThenPush(b: Book, t: ConnTag, body: seq<byte>, resp: RawResp)
    requires b.protocol.HttpProtocol?
    ensures Note(Note(b, Answered(t, body)), Pushed(t, resp)) == Note(Note(b, Pushed(t, resp)), Answered(t, body))
  {
  }

  /** The lane takes the oldest response from the ring. */
  lemma KeepsRingPop(w: Par, b: Book)
    requires BookOk(w, b) && b.ring != []
    ensures BookOk(w, b.(ring := b.ring[1..]))
  {
    var b' := b.(ring := b.ring[1..]);
    assert b'.Open(w.Active().tag) == b.Open(w.Active().tag);
    assert b'.Open(w.Standby().tag) == b.Open(w.Standby().tag);
  }

  /** A delivered connection that was never used takes the place of the standby. */
  lemma KeepsDeliver(w: Par, b: Book, conn: ConnState)
    requires BookOk(w, b)
    requires conn.tag !in b.used && conn.Http? == b.protocol.HttpProtocol?
    requires conn.Quic? ==> conn.inflight.None? && conn.sentAt.None?
    ensures BookOk(w.(dual := w.dual.ReplaceStandby(conn)), b)
  {
  }

  // Acts

  /** What is assumed of every connection: a dead QUIC connection stays dead, and a delivered one is new. */
  predicate Allowed(w: Par, b: Book, a: Act) {
    match a
    case DoSend(_, _, _, _) => true
    case DoReap(reply) => w.Active().Quic? ==> reply.dead == (w.Active().tag in b.failed)
    case DoTick => true
    case DoDeliver(resp) =>
      resp.Some? ==>
        var c := resp.value.conn;
        && c.tag !in b.used && c.Http? == b.protocol.HttpProtocol?
        && (c.Quic? ==> c.inflight.None? && c.sentAt.None?)
  }

  /** A well-behaved HTTP connection: once failed it neither accepts nor answers, and it answers only what it owes. */
  predicate Behaves(w: Par, b: Book, a: Act) {
    var t := w.Active().tag;
    match a
    case DoSend(_, _, _, answer) =>
      w.Active().Http? ==>
        && (answer.first.Ok? ==> t !in b.failed)
        && (answer.retry.Ok? ==> w.Standby().tag !in b.failed)
    case DoReap(reply) =>
      w.Active().Http? && reply.poll.Ok? && reply.poll.value.Some? ==> t !in b.failed && b.Open(t) != []
    case _ => true
  }

  /** The book after an act: a popped job is counted, then the effects are noted. */
  function After(w: Par, b: Book, a: Act): Book {
    NoteAll(if a.DoSend? then b.(pops := b.pops + 1) else b, Step(w, a).1)
  }

  lemma {:induction false} KeepsHttpSend(w: Par, b: Book, job: Job, sent: nat, tx: seq<byte>, a: SendAnswer)
    requires BookOk(w, b) && PopIsFresh(b) && b.protocol.HttpProtocol?
    ensures BookOk(SendTo(w, job, sent, tx, a).0, NoteAll(b, SendTo(w, job, sent, tx, a).1))
  {
    var t := w.Active().tag;
    if a.first.Ok? {
      NoteOne(b, SentOn(t, job, sent, a.now, tx));
      KeepsRecord(w, b, job, sent, a.now, tx);
    } else if ConnFailed(a.first.error) {
      KeepsRetry(w, b, job, sent, tx, a);
    }
  }

  lemma {:induction false} KeepsRetry(w: Par, b: Book, job: Job, sent: nat, tx: seq<byte>, a: SendAnswer)
    requires BookOk(w, b) && PopIsFresh(b) && b.protocol.HttpProtocol?
    requires a.first.Err? && ConnFailed(a.first.error)
    ensures BookOk(SendTo(w, job, sent, tx, a).0, NoteAll(b, SendTo(w, job, sent, tx, a).1))
  {
    var t := w.Active().tag;
    var b1 := Note(b, Broke(t));
    KeepsBroke(w, b, t);
    NoteOne(b, Broke(t));
    var (w2, fx2) := Failover(w);
    KeepsFailover(w, b1);
    var b2 := NoteAll(b1, fx2);
    NoteConcat(b, [Broke(t)], fx2);
    var (w3, fx3) := Retry(w2, job, sent, tx, a);
    NoteConcat(b, [Broke(t)] + fx2, fx3);
    if a.retry.Ok? {
      KeepsRecord(w2, b2, job, sent, a.now, tx);
      NoteOne(b2, SentOn(w2.Active().tag, job, sent, a.now, tx));
    } else if ConnFailed(a.retry.error) {
      KeepsBroke(w2, b2, w2.Active().tag);
      NoteOne(b2, Broke(w2.Active().tag));
    }
  }

  lemma KeepsSend(w: Par, b: Book, job: Job, sent: nat, tx: seq<byte>, a: SendAnswer)
    requires BookOk(w, b)
    ensures BookOk(SendTo(w, job, sent, tx, a).0, After(w, b, DoSend(job, sent, tx, a)))
  {
    var b1 := b.(pops := b.pops + 1);
    KeepsPop(w, b);
    if b.protocol.HttpProtocol? {
      KeepsHttpSend(w, b1, job, sent, tx, a);
    } else {
      KeepsQuicSendTo(w, b1, job, sent, tx, a);
    }
  }

  lemma {:induction false} KeepsQuicSendTo(w: Par, b: Book, job: Job, sent: nat, tx: seq<byte>, a: SendAnswer)
    requires BookOk(w, b) && PopIsFresh(b) && b.protocol.QuicProtocol?
    ensures BookOk(SendTo(w, job, sent, tx, a).0, NoteAll(b, SendTo(w, job, sent, tx, a).1))
  {
    if a.first.Ok? {
      NoteOne(b, SentOn(w.Active().tag, job, sent, a.now, tx));
      KeepsQuicSend(w, b, job, sent, a.now, tx);
    } else {
      KeepsQuicMiss(w, b);
    }
  }

  lemma {:induction false} KeepsBody(w: Par, b: Book, a: ReapAnswer)
    requires BookOk(w, b) && b.protocol.HttpProtocol?
    requires a.poll.Ok? && a.poll.value.Some?
    ensures BookOk(Reap(w, a).0, NoteAll(b, Reap(w, a).1))
  {
    var t, body := w.Active().tag, a.poll.value.value;
    if w.inflight.None? {
      NoteOne(b, Answered(t, body));
      KeepsAnswered(w, b, body);
    } else {
      var (job, sent) := w.inflight.value;
      var resp := RawResp(job.id, w.Pid(), sent, a.settled, JsonRpc.Capped(body), false);
      var b1 := Note(b, Pushed(t, resp));
      KeepsHttpPush(w, b, resp);
      KeepsAnswered(w.(inflight := None), b1, body);
      AnswerThenPush(b, t, body, resp);
      assert Reap(w, a).1 == [Answered(t, body)] + [Pushed(t, resp)];
      NoteConcat(b, [Answered(t, body)], [Pushed(t, resp)]);
      NoteOne(b, Answered(t, body));
      NoteOne(Note(b, Answered(t, body)), Pushed(t, resp));
    }
  }

  lemma {:induction false} KeepsReap(w: Par, b: Book, a: ReapAnswer)
    requires BookOk(w, b) && Allowed(w, b, DoReap(a))
    ensures BookOk(Reap(w, a).0, NoteAll(b, Reap(w, a).1))
  {
    var t := w.Active().tag;
    if b.protocol.HttpProtocol? {
      if a.poll.Ok? {
        if a.poll.value.Some? { KeepsBody(w, b, a); }
      } else if ConnFailed(a.poll.error) {
        KeepsBroke(w, b, t);
        NoteOne(b, Broke(t));
        KeepsFailover(w, Note(b, Broke(t)));
        NoteConcat(b, [Broke(t)], Failover(w).1);
      }
    } else if a.dead {
      KeepsFailover(w, b);
    } else if WindowOver(w.Active(), a.now) {
      var (id, sent) := w.Active().inflight.value;
      var resp := RawResp(id, w.Pid(), sent, a.settled, [], true);
      NoteOne(b, Pushed(t, resp));
      KeepsQuicPush(w, b, resp);
    }
  }

  /** Every act a worker can take keeps the invariant. */
  lemma ActsKeepBook(w: Par, b: Book, a: Act)
    requires BookOk(w, b) && Allowed(w, b, a)
    ensures BookOk(Step(w, a).0, After(w, b, a))
  {
    match a
    case DoSend(job, sent, tx, answer) => KeepsSend(w, b, job, sent, tx, answer);
    case DoReap(reply) => KeepsReap(w, b, reply);
    case DoTick => KeepsTick(w, b);
    case DoDeliver(resp) => if resp.Some? { KeepsDeliver(w, b, resp.value.conn); }
  }

  lemma KeepsTick(w: Par, b: Book)
    requires BookOk(w, b)
    ensures BookOk(Step(w, DoTick).0, b)
  {
  }

  // Answers

  /** What a connection owes was sent on it and is not answered yet. */
  ghost predicate AnswersOk(b: Book) {
    && (forall x :: x in b.answers ==> x < |b.sends|)
    && (forall t, j :: t in b.open && 0 <= j < |b.open[t]| ==> Owed(b, t, b.open[t][j]))
    && Ascending(b.open)
  }

  predicate Owed(b: Book, t: ConnTag, x: nat) {
    x < |b.sends| && b.sends[x].conn == t && x !in b.answers
  }

  /** The response carries the first bytes of the body that answered the send it names. */
  predicate PushGenuine(b: Book, r: PushRec) {
    r.send in b.answers && r.resp.bytes == JsonRpc.Capped(b.answers[r.send]) && !r.resp.noResponse
  }

  ghost predicate Genuine(b: Book) {
    b.protocol.HttpProtocol? ==> forall k :: 0 <= k < |b.pushes| ==> PushGenuine(b, b.pushes[k])
  }

  lemma SendKeepsAnswers(b: Book, e: Effect)
    requires AnswersOk(b) && e.SentOn?
    ensures AnswersOk(Note(b, e))
  {
    var b' := Note(b, e);
    if b.protocol.HttpProtocol? {
      forall t, j | t in b'.open && 0 <= j < |b'.open[t]| ensures Owed(b', t, b'.open[t][j]) {
        assert t in b.open && j < |b.open[t]| ==> Owed(b, t, b.open[t][j]);
      }
      forall t, i, j | t in b'.open && 0 <= i < j < |b'.open[t]| ensures b'.open[t][i] < b'.open[t][j] {
        assert Owed(b, t, b.open[t][i]);
      }
    } else {
      forall t, j | t in b.open && 0 <= j < |b.open[t]| ensures Owed(b', t, b.open[t][j]) {
        assert Owed(b, t, b.open[t][j]);
      }
    }
  }

  /** The first answer owed is recorded; it is nobody else's and was not recorded before. */
  lemma AnswerKeepsAnswers(b: Book, tag: ConnTag, body: seq<byte>)
    requires AnswersOk(b) && b.Open(tag) != []
    ensures AnswersOk(Note(b, Answered(tag, body))) && b.Open(tag)[0] !in b.answers
  {
    var b', first := Note(b, Answered(tag, body)), b.Open(tag)[0];
    assert Owed(b, tag, b.open[tag][0]);
    forall t, j | t in b'.open && 0 <= j < |b'.open[t]| ensures Owed(b', t, b'.open[t][j]) {
      var k := if t == tag then j + 1 else j;
      assert b'.open[t][j] == b.open[t][k] && Owed(b, t, b.open[t][k]);
      assert t == tag ==> b.open[tag][0] < b.open[tag][k];
    }
    forall t, i, j | t in b'.open && 0 <= i < j < |b'.open[t]| ensures b'.open[t][i] < b'.open[t][j] {
      assert t == tag ==> b.open[t][i + 1] < b.open[t][j + 1];
    }
  }

  lemma NoteKeepsAnswers(b: Book, e: Effect)
    requires AnswersOk(b)
    ensures AnswersOk(Note(b, e))
    ensures Genuine(b) && !e.Pushed? ==> Genuine(Note(b, e))
  {
    match e
    case SentOn(_, _, _, _, _) => SendKeepsAnswers(b, e);
    case Answered(tag, body) => if b.Open(tag) != [] { AnswerKeepsAnswers(b, tag, body); }
    case _ => SameAnswers(b, Note(b, e));
  }

  lemma SameAnswers(b: Book, b': Book)
    requires AnswersOk(b) && b'.open == b.open && b'.answers == b.answers && b'.sends == b.sends
    ensures AnswersOk(b')
    ensures Genuine(b) && b'.protocol == b.protocol && b'.pushes == b.pushes ==> Genuine(b')
  {
    forall t, j | t in b.open && 0 <= j < |b.open[t]| ensures Owed(b', t, b.open[t][j]) {
      assert Owed(b, t, b.open[t][j]);
    }
    forall k | 0 <= k < |b.pushes| && PushGenuine(b, b.pushes[k]) ensures PushGenuine(b', b.pushes[k]) {}
  }

  lemma {:induction false} NotesKeepAnswers(b: Book, fx: seq<Effect>)
    requires AnswersOk(b)
    ensures AnswersOk(NoteAll(b, fx))
    ensures Genuine(b) && (forall e :: e in fx ==> !e.Pushed?) ==> Genuine(NoteAll(b, fx))
    decreases |fx|
  {
    if fx != [] {
      NoteKeepsAnswers(b, fx[0]);
      assert fx[0] in fx;
      NotesKeepAnswers(Note(b, fx[0]), fx[1..]);
    }
  }

  /** The one answer a connection owes arrives and is pushed under the job in flight. */
  lemma AnswerIsGenuine(b: Book, t: ConnTag, body: seq<byte>, resp: RawResp)
    requires AnswersOk(b) && Genuine(b) && b.protocol.HttpProtocol?
    requires b.cur.Some? && b.Open(t) == [b.cur.value]
    requires resp.bytes == JsonRpc.Capped(body) && !resp.noResponse
    ensures Genuine(Note(Note(b, Answered(t, body)), Pushed(t, resp)))
  {
    var b1 := Note(b, Answered(t, body));
    NoteKeepsAnswers(b, Answered(t, body));
    var b2 := Note(b1, Pushed(t, resp));
    forall k | 0 <= k < |b2.pushes| ensures PushGenuine(b2, b2.pushes[k]) {
      assert k < |b1.pushes| ==> PushGenuine(b1, b1.pushes[k]);
    }
  }
}
