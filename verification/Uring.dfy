/** The io_uring backend (backend/io_uring.rs) as queues: entries move from
    `pending` to the submission queue, into the kernel, to the completion queue
    and into the completion maps, while staged send buffers wait in order. */
module Uring {
  import opened Bytes

  const RX_CAP: nat := 4096
  const RING_ENTRIES: nat := 256
  const U63: nat := 0x8000_0000_0000_0000
  const OP_SEND: nat := 0
  const OP_RECV: nat := 1

  datatype Mode = BatchSyscall | SqeStream

  /** `(idx << 1) | op` on 64-bit words. */
  function Ud(idx: nat, op: nat): (r: nat)
    requires op < 2
  {
    idx * 2 % U64 + op
  }

  /** Keys collide exactly when the operations agree and the indices agree modulo 2^63. */
  lemma UdCollides(i: nat, a: nat, j: nat, b: nat)
    requires a < 2 && b < 2
    ensures Ud(i, a) == Ud(j, b) <==> a == b && i % U63 == j % U63
    ensures Ud(i, a) % 2 == a
  {
    assert i * 2 % U64 == 2 * (i % U63);
    assert j * 2 % U64 == 2 * (j % U63);
  }

  /** A staged send buffer: its address and its bytes. */
  datatype Buf = Buf(addr: nat, bytes: seq<byte>)

  datatype Sqe = SendSqe(idx: nat, buf: Buf) | RecvSqe(idx: nat)

  datatype Cqe = Cqe(key: nat, result: int)

  /** `UringConn`, with the bytes the kernel has written into its receive buffer and those consumed by `poll_recv`. */
  datatype Conn = Conn(
    recvInFlight: bool,
    sendInFlight: seq<Buf>,
    rxBuf: seq<byte>,
    arrived: seq<byte>,
    consumed: seq<byte>)

  datatype Ring = Ring(
    pending: seq<Sqe>,
    sends: map<nat, nat>,   // completed_sends
    recvs: map<nat, int>,   // completed_recvs
    sq: seq<Sqe>,
    taken: seq<Sqe>,        // every entry the kernel ever took, in order
    kernel: seq<Sqe>,       // those of them not yet completed
    cq: seq<Cqe>,
    conns: seq<Conn>)       // by index; `next_idx` is its length

  // Views of the queues

  /** The buffers of connection `i` in a queue of entries. */
  function SendsOf(q: seq<Sqe>, i: nat): seq<Buf> {
    if q == [] then []
    else (if q[0].SendSqe? && q[0].idx == i then [q[0].buf] else []) + SendsOf(q[1..], i)
  }

  function RecvsOf(q: seq<Sqe>, i: nat): nat {
    if q == [] then 0
    else (if q[0].RecvSqe? && q[0].idx == i then 1 else 0) + RecvsOf(q[1..], i)
  }

  function Completions(cq: seq<Cqe>, key: nat): nat {
    if cq == [] then 0 else (if cq[0].key == key then 1 else 0) + Completions(cq[1..], key)
  }

  /** Buffers of connection `i` that an entry not yet completed points to, oldest first. */
  function Live(s: Ring, i: nat): seq<Buf> { SendsOf(s.kernel + s.sq + s.pending, i) }

  /** Completed sends of connection `i` whose buffers were not yet reclaimed. */
  function Done(s: Ring, i: nat): nat {
    Completions(s.cq, Ud(i, OP_SEND)) + (if Ud(i, OP_SEND) in s.sends then s.sends[Ud(i, OP_SEND)] else 0)
  }

  /** Receives of connection `i` issued and not yet consumed. */
  function Receiving(s: Ring, i: nat): nat {
    RecvsOf(s.kernel + s.sq, i) + Completions(s.cq, Ud(i, OP_RECV)) + (if Ud(i, OP_RECV) in s.recvs then 1 else 0)
  }

  lemma {:induction false} SendsOfConcat(a: seq<Sqe>, b: seq<Sqe>, i: nat)
    ensures SendsOf(a + b, i) == SendsOf(a, i) + SendsOf(b, i)
    decreases |a|
  {
    if a == [] {
      assert a + b == b;
    } else {
      assert (a + b)[1..] == a[1..] + b;
      SendsOfConcat(a[1..], b, i);
    }
  }

  lemma {:induction false} RecvsOfConcat(a: seq<Sqe>, b: seq<Sqe>, i: nat)
    ensures RecvsOf(a + b, i) == RecvsOf(a, i) + RecvsOf(b, i)
    decreases |a|
  {
    if a == [] {
      assert a + b == b;
    } else {
      assert (a + b)[1..] == a[1..] + b;
      RecvsOfConcat(a[1..], b, i);
    }
  }

  lemma {:induction false} CompletionsConcat(a: seq<Cqe>, b: seq<Cqe>, key: nat)
    ensures Completions(a + b, key) == Completions(a, key) + Completions(b, key)
    decreases |a|
  {
    if a == [] {
      assert a + b == b;
    } else {
      assert (a + b)[1..] == a[1..] + b;
      CompletionsConcat(a[1..], b, key);
    }
  }

  lemma {:induction false} OneSqe(e: Sqe, i: nat)
    ensures SendsOf([e], i) == if e.SendSqe? && e.idx == i then [e.buf] else []
    ensures RecvsOf([e], i) == if e.RecvSqe? && e.idx == i then 1 else 0
  {
    assert [e][1..] == [];
  }

  lemma {:induction false} OneCqe(c: Cqe, key: nat)
    ensures Completions([c], key) == if c.key == key then 1 else 0
  {
    assert [c][1..] == [];
  }

  // Subsequences

  predicate Subseq(a: seq<Buf>, b: seq<Buf>)
    decreases |b|
  {
    a == [] || (b != [] && ((a[0] == b[0] && Subseq(a[1..], b[1..])) || Subseq(a, b[1..])))
  }

  lemma {:induction false} SubseqTail(a: seq<Buf>, b: seq<Buf>)
    requires a != [] && Subseq(a, b)
    ensures b != [] && Subseq(a[1..], b[1..])
    decreases |b|
  {
    if !(a[0] == b[0] && Subseq(a[1..], b[1..])) {
      SubseqTail(a, b[1..]);
      SubseqWeaken(a[1..], b[1..]);
    }
  }

  lemma {:induction false} SubseqWeaken(a: seq<Buf>, b: seq<Buf>)
    requires b != [] && Subseq(a, b[1..])
    ensures Subseq(a, b)
  {
  }

  lemma {:induction false} SubseqMember(a: seq<Buf>, b: seq<Buf>, x: Buf)
    requires Subseq(a, b) && x in a
    ensures x in b
    decreases |b|
  {
    if a[0] == b[0] && Subseq(a[1..], b[1..]) {
      if x != a[0] { SubseqMember(a[1..], b[1..], x); }
    } else {
      SubseqMember(a, b[1..], x);
    }
  }

  lemma {:induction false} SubseqSnoc(a: seq<Buf>, b: seq<Buf>, x: Buf)
    requires Subseq(a, b)
    ensures Subseq(a + [x], b + [x])
    decreases |b|
  {
    if b == [] {
      assert a + [x] == b + [x];
      SubseqRefl(a + [x]);
    } else {
      assert (b + [x])[1..] == b[1..] + [x];
      if a != [] && a[0] == b[0] && Subseq(a[1..], b[1..]) {
        assert (a + [x])[1..] == a[1..] + [x];
        SubseqSnoc(a[1..], b[1..], x);
      } else {
        SubseqEmptyOr(a, b);
        SubseqSnoc(a, b[1..], x);
      }
    }
  }

  lemma {:induction false} SubseqEmptyOr(a: seq<Buf>, b: seq<Buf>)
    requires Subseq(a, b) && b != []
    requires !(a != [] && a[0] == b[0] && Subseq(a[1..], b[1..]))
    ensures Subseq(a, b[1..])
  {
  }

  lemma {:induction false} SubseqRefl(a: seq<Buf>)
    ensures Subseq(a, a)
    decreases |a|
  {
    if a != [] { SubseqRefl(a[1..]); }
  }

  lemma {:induction false} SubseqExtend(a: seq<Buf>, b: seq<Buf>, x: Buf)
    requires Subseq(a, b)
    ensures Subseq(a, b + [x])
    decreases |b|
  {
    if a != [] {
      assert (b + [x])[1..] == b[1..] + [x];
      if a[0] == b[0] && Subseq(a[1..], b[1..]) {
        SubseqExtend(a[1..], b[1..], x);
      } else {
        SubseqExtend(a, b[1..], x);
      }
    }
  }

  lemma {:induction false} SubseqDrop(a: seq<Buf>, k: nat, b: seq<Buf>)
    requires k < |a| && Subseq(a, b)
    ensures Subseq(a[..k] + a[k + 1..], b)
    decreases |b|
  {
    var d := a[..k] + a[k + 1..];
    if a[0] == b[0] && Subseq(a[1..], b[1..]) {
      if k == 0 {
        assert d == a[1..];
        SubseqWeaken(d, b);
      } else {
        SubseqDrop(a[1..], k - 1, b[1..]);
        assert d[1..] == a[1..][..k - 1] + a[1..][k..];
        assert d[0] == b[0];
      }
    } else {
      SubseqDrop(a, k, b[1..]);
      SubseqWeaken(d, b);
    }
  }

  // The invariant

  ghost predicate Wf(s: Ring) {
    && |s.conns| <= U63 && |s.sq| <= RING_ENTRIES
    && (forall e :: e in s.kernel + s.sq + s.pending ==> e.idx < |s.conns|)
    && (forall e :: e in s.pending ==> e.SendSqe?)
    && (forall i :: 0 <= i < |s.conns| ==> |s.conns[i].rxBuf| == RX_CAP)
    && (forall c :: c in s.cq ==> c.key < 2 * |s.conns|)
    && (forall k :: k in s.sends || k in s.recvs ==> k < 2 * |s.conns|)
  }

  /** Every buffer an entry still points to waits in `queue`, in order, behind the completed ones. */
  ghost predicate SendOk(s: Ring, i: nat, queue: seq<Buf>) {
    Done(s, i) <= |queue| && Subseq(Live(s, i), queue[Done(s, i)..])
  }

  /** The result of a finished receive that the caller has not seen. */
  function ResultIn(cq: seq<Cqe>, key: nat): Option<int> {
    if cq == [] then None else if cq[0].key == key then Some(cq[0].result) else ResultIn(cq[1..], key)
  }

  function Finished(s: Ring, i: nat): Option<int> {
    var key := Ud(i, OP_RECV);
    if key in s.recvs then Some(s.recvs[key]) else ResultIn(s.cq, key)
  }

  /** The receive buffer holds exactly the bytes that arrived and were not consumed. */
  predicate RxOk(c: Conn, result: Option<int>) {
    && c.consumed <= c.arrived
    && var unread := c.arrived[|c.consumed|..];
       if result.Some? && result.value >= 0
       then |unread| == result.value <= |c.rxBuf| && c.rxBuf[..result.value] == unread
       else unread == []
  }

  function Bit(b: bool): nat { if b then 1 else 0 }

  /** `queues[i]` covers the live sends of connection `i`; `flags[i]` says whether it has a receive outstanding. */
  ghost predicate Inv(s: Ring, queues: seq<seq<Buf>>, flags: seq<bool>) {
    && Wf(s) && |queues| == |flags| == |s.conns|
    && forall i :: 0 <= i < |s.conns| ==>
         && SendOk(s, i, queues[i])
         && Receiving(s, i) == Bit(flags[i])
         && RxOk(s.conns[i], Finished(s, i))
  }

  function Queues(s: Ring): (r: seq<seq<Buf>>)
    ensures |r| == |s.conns|
  {
    seq(|s.conns|, i requires 0 <= i < |s.conns| => s.conns[i].sendInFlight)
  }

  function Flags(s: Ring): (r: seq<bool>)
    ensures |r| == |s.conns|
  {
    seq(|s.conns|, i requires 0 <= i < |s.conns| => s.conns[i].recvInFlight)
  }

  /** What holds between calls. */
  ghost predicate Valid(s: Ring) { Inv(s, Queues(s), Flags(s)) }

  /** The point of the staging queue: no entry that can still run points to a freed buffer. */
  lemma BuffersOutliveEntries(s: Ring, e: Sqe)
    requires Valid(s) && e in s.kernel + s.sq + s.pending && e.SendSqe?
    ensures e.buf in s.conns[e.idx].sendInFlight
  {
    assert SendOk(s, e.idx, Queues(s)[e.idx]);
    LiveMember(s.kernel + s.sq + s.pending, e);
    var q := s.conns[e.idx].sendInFlight;
    SubseqMember(Live(s, e.idx), q[Done(s, e.idx)..], e.buf);
  }

  lemma {:induction false} LiveMember(q: seq<Sqe>, e: Sqe)
    requires e in q && e.SendSqe?
    ensures e.buf in SendsOf(q, e.idx)
    decreases |q|
  {
    if q[0] != e { LiveMember(q[1..], e); }
  }

  // Kernel steps

  datatype KStep = Take | SendDone(j: nat) | RecvDone(j: nat, result: int, data: seq<byte>)

  /** Sends of one connection complete in order; a receive completes with an error or with the bytes it wrote. */
  predicate KEnabled(s: Ring, e: KStep) {
    match e
    case Take => s.sq != []
    case SendDone(j) =>
      && j < |s.kernel| && s.kernel[j].SendSqe?
      && forall k :: 0 <= k < j ==> !(s.kernel[k].SendSqe? && s.kernel[k].idx == s.kernel[j].idx)
    case RecvDone(j, result, data) =>
      && j < |s.kernel| && s.kernel[j].RecvSqe? && s.kernel[j].idx < |s.conns|
      && |data| <= |s.conns[s.kernel[j].idx].rxBuf|
      && (if result < 0 then data == [] else result == |data|)
  }

  function Without(q: seq<Sqe>, j: nat): seq<Sqe>
    requires j < |q|
  {
    q[..j] + q[j + 1..]
  }

  function KNext(s: Ring, e: KStep): Ring
    requires KEnabled(s, e)
  {
    match e
    case Take => s.(kernel := s.kernel + [s.sq[0]], taken := s.taken + [s.sq[0]], sq := s.sq[1..])
    case SendDone(j) =>
      s.(kernel := Without(s.kernel, j), cq := s.cq + [Cqe(Ud(s.kernel[j].idx, OP_SEND), 0)])
    case RecvDone(j, result, data) =>
      var i := s.kernel[j].idx;
      var c := s.conns[i];
      s.(kernel := Without(s.kernel, j), cq := s.cq + [Cqe(Ud(i, OP_RECV), result)],
         conns := s.conns[i := c.(rxBuf := data + c.rxBuf[|data|..], arrived := c.arrived + data)])
  }

  lemma {:induction false} WithoutSends(q: seq<Sqe>, j: nat, i: nat)
    requires j < |q|
    ensures SendsOf(q, i) == SendsOf(q[..j], i) + SendsOf([q[j]], i) + SendsOf(q[j + 1..], i)
    ensures SendsOf(Without(q, j), i) == SendsOf(q[..j], i) + SendsOf(q[j + 1..], i)
    ensures RecvsOf(q, i) == RecvsOf(Without(q, j), i) + RecvsOf([q[j]], i)
  {
    assert q == q[..j] + [q[j]] + q[j + 1..];
    SendsOfConcat(q[..j] + [q[j]], q[j + 1..], i);
    SendsOfConcat(q[..j], [q[j]], i);
    SendsOfConcat(q[..j], q[j + 1..], i);
    RecvsOfConcat(q[..j] + [q[j]], q[j + 1..], i);
    RecvsOfConcat(q[..j], [q[j]], i);
    RecvsOfConcat(q[..j], q[j + 1..], i);
  }

  lemma {:induction false} NoSends(q: seq<Sqe>, i: nat)
    requires forall k :: 0 <= k < |q| ==> !(q[k].SendSqe? && q[k].idx == i)
    ensures SendsOf(q, i) == []
    decreases |q|
  {
    if q != [] {
      forall k | 0 <= k < |q| - 1 ensures q[1..][k] == q[k + 1] {}
      NoSends(q[1..], i);
    }
  }

  lemma {:induction false} LiveSplit(s: Ring, i: nat)
    ensures Live(s, i) == SendsOf(s.kernel, i) + SendsOf(s.sq + s.pending, i)
  {
    assert s.kernel + s.sq + s.pending == s.kernel + (s.sq + s.pending);
    SendsOfConcat(s.kernel, s.sq + s.pending, i);
  }

  lemma {:induction false} LiveWithout(s: Ring, j: nat, s': Ring, i: nat)
    requires j < |s.kernel| && s'.kernel == Without(s.kernel, j) && s'.sq == s.sq && s'.pending == s.pending
    ensures var tail := SendsOf(s.kernel[j + 1..], i) + SendsOf(s.sq + s.pending, i);
            && Live(s, i) == SendsOf(s.kernel[..j], i) + (SendsOf([s.kernel[j]], i) + tail)
            && Live(s', i) == SendsOf(s.kernel[..j], i) + tail
  {
    LiveSplit(s, i);
    LiveSplit(s', i);
    WithoutSends(s.kernel, j, i);
    var front, done := SendsOf(s.kernel[..j], i), SendsOf([s.kernel[j]], i);
    var behind, rest := SendsOf(s.kernel[j + 1..], i), SendsOf(s.sq + s.pending, i);
    Assoc(front + done, behind, rest);
    Assoc(front, done, behind + rest);
    Assoc(front, behind, rest);
  }

  lemma {:induction false} CountsWithout(s: Ring, j: nat, c: Cqe, s': Ring, i: nat)
    requires j < |s.kernel| && s'.kernel == Without(s.kernel, j) && s'.sq == s.sq && s'.cq == s.cq + [c]
    requires s'.sends == s.sends && s'.recvs == s.recvs
    ensures Done(s', i) == Done(s, i) + (if c.key == Ud(i, OP_SEND) then 1 else 0)
    ensures Receiving(s', i) + RecvsOf([s.kernel[j]], i)
         == Receiving(s, i) + (if c.key == Ud(i, OP_RECV) then 1 else 0)
  {
    WithoutSends(s.kernel, j, i);
    RecvsOfConcat(s.kernel, s.sq, i);
    RecvsOfConcat(s'.kernel, s.sq, i);
    CompletionsConcat(s.cq, [c], Ud(i, OP_SEND));
    CompletionsConcat(s.cq, [c], Ud(i, OP_RECV));
    OneCqe(c, Ud(i, OP_SEND));
    OneCqe(c, Ud(i, OP_RECV));
  }

  lemma SendDoneEffect(s: Ring, j: nat, i: nat)
    requires j < |s.kernel| && KEnabled(s, SendDone(j)) && i < U63 && s.kernel[j].idx < U63
    ensures var s' := KNext(s, SendDone(j));
            && (if s.kernel[j].idx == i
                then Live(s, i) == [s.kernel[j].buf] + Live(s', i) && Done(s', i) == Done(s, i) + 1
                else Live(s', i) == Live(s, i) && Done(s', i) == Done(s, i))
            && Receiving(s', i) == Receiving(s, i)
  {
    var s', x := KNext(s, SendDone(j)), s.kernel[j];
    SendDoneLive(s, j, s', i);
    CountsWithout(s, j, Cqe(Ud(x.idx, OP_SEND), 0), s', i);
    OneSqe(x, i);
    SmallUd(x.idx, i);
  }

  lemma SendDoneLive(s: Ring, j: nat, s': Ring, i: nat)
    requires j < |s.kernel| && KEnabled(s, SendDone(j))
    requires s'.kernel == Without(s.kernel, j) && s'.sq == s.sq && s'.pending == s.pending
    ensures Live(s, i) == (if s.kernel[j].idx == i then [s.kernel[j].buf] else []) + Live(s', i)
  {
    LiveWithout(s, j, s', i);
    OneSqe(s.kernel[j], i);
    if s.kernel[j].idx == i { NoSends(s.kernel[..j], i); }
  }

  lemma RecvDoneEffect(s: Ring, e: KStep, i: nat)
    requires e.RecvDone? && KEnabled(s, e) && i < U63 && s.kernel[e.j].idx < U63
    ensures var s' := KNext(s, e);
            Live(s', i) == Live(s, i) && Done(s', i) == Done(s, i) && Receiving(s', i) == Receiving(s, i)
  {
    var s', x := KNext(s, e), s.kernel[e.j];
    RecvDoneLive(s, e.j, s', i);
    CountsWithout(s, e.j, Cqe(Ud(x.idx, OP_RECV), e.result), s', i);
    OneSqe(x, i);
    SmallUd(x.idx, i);
  }

  lemma RecvDoneLive(s: Ring, j: nat, s': Ring, i: nat)
    requires j < |s.kernel| && s.kernel[j].RecvSqe?
    requires s'.kernel == Without(s.kernel, j) && s'.sq == s.sq && s'.pending == s.pending
    ensures Live(s', i) == Live(s, i)
  {
    LiveWithout(s, j, s', i);
    OneSqe(s.kernel[j], i);
    var tail := SendsOf(s.kernel[j + 1..], i) + SendsOf(s.sq + s.pending, i);
    assert [] + tail == tail;
  }

  /** How a kernel step changes the views of connection `i`. */
  lemma KernelEffect(s: Ring, e: KStep, i: nat)
    requires KEnabled(s, e) && i < U63 && (e.Take? || s.kernel[e.j].idx < U63)
    ensures var s' := KNext(s, e);
            && (if e.SendDone? && s.kernel[e.j].idx == i
                then Live(s, i) != [] && Live(s', i) == Live(s, i)[1..] && Done(s', i) == Done(s, i) + 1
                else Live(s', i) == Live(s, i) && Done(s', i) == Done(s, i))
            && Receiving(s', i) == Receiving(s, i)
  {
    var s' := KNext(s, e);
    match e
    case Take => assert s'.kernel + s'.sq == s.kernel + s.sq;
    case SendDone(j) => SendDoneEffect(s, j, i);
    case RecvDone(_, _, _) => RecvDoneEffect(s, e, i);
  }

  lemma SmallUd(i: nat, j: nat)
    requires i < U63 && j < U63
    ensures Ud(i, OP_SEND) == Ud(j, OP_SEND) <==> i == j
    ensures Ud(i, OP_RECV) == Ud(j, OP_RECV) <==> i == j
    ensures Ud(i, OP_SEND) != Ud(j, OP_RECV) && Ud(i, OP_RECV) != Ud(j, OP_SEND)
  {
    UdCollides(i, OP_SEND, j, OP_SEND);
    UdCollides(i, OP_RECV, j, OP_RECV);
    UdCollides(i, OP_SEND, j, OP_RECV);
    UdCollides(i, OP_RECV, j, OP_SEND);
  }

  lemma {:induction false} ResultInSnoc(cq: seq<Cqe>, c: Cqe, key: nat)
    ensures ResultIn(cq + [c], key)
         == if ResultIn(cq, key).Some? then ResultIn(cq, key) else if c.key == key then Some(c.result) else None
    ensures ResultIn(cq, key).Some? <==> Completions(cq, key) > 0
    decreases |cq|
  {
    if cq == [] {
      assert cq + [c] == [c];
    } else {
      assert (cq + [c])[1..] == cq[1..] + [c];
      ResultInSnoc(cq[1..], c, key);
    }
  }

  lemma {:induction false} RecvMember(q: seq<Sqe>, e: Sqe)
    requires e in q && e.RecvSqe?
    ensures RecvsOf(q, e.idx) > 0
    decreases |q|
  {
    if q[0] != e { RecvMember(q[1..], e); }
  }

  lemma KernelKeepsRx(s: Ring, e: KStep, i: nat)
    requires Wf(s) && KEnabled(s, e) && i < |s.conns|
    requires Receiving(s, i) <= 1 && RxOk(s.conns[i], Finished(s, i))
    ensures RxOk(KNext(s, e).conns[i], Finished(KNext(s, e), i))
  {
    var s', key := KNext(s, e), Ud(i, OP_RECV);
    if !e.Take? {
      var x, c := s.kernel[e.j], s'.cq[|s.cq|];
      assert x in s.kernel + s.sq + s.pending;
      SmallUd(x.idx, i);
      ResultInSnoc(s.cq, c, key);
      if e.RecvDone? && x.idx == i {
        RecvMember(s.kernel + s.sq, x);
        var conn, conn' := s.conns[i], s'.conns[i];
        assert conn'.arrived[|conn.consumed|..] == e.data;
        assert conn'.rxBuf[..|e.data|] == e.data;
      }
    }
  }

  lemma KernelKeepsWf(s: Ring, e: KStep)
    requires Wf(s) && KEnabled(s, e)
    ensures Wf(KNext(s, e))
  {
    var s' := KNext(s, e);
    forall x | x in s'.kernel + s'.sq + s'.pending ensures x in s.kernel + s.sq + s.pending {
    }
    if !e.Take? {
      assert s.kernel[e.j] in s.kernel + s.sq + s.pending;
      KeyBound(s.kernel[e.j].idx, |s.conns|);
    }
  }

  lemma KeyBound(i: nat, n: nat)
    requires i < n <= U63
    ensures Ud(i, OP_SEND) == 2 * i < 2 * n && Ud(i, OP_RECV) == 2 * i + 1 < 2 * n
  {
  }

  /** Whatever the kernel does keeps the invariant. */
  lemma KernelKeeps(s: Ring, e: KStep, queues: seq<seq<Buf>>, flags: seq<bool>)
    requires Inv(s, queues, flags) && KEnabled(s, e)
    ensures Inv(KNext(s, e), queues, flags)
  {
    var s' := KNext(s, e);
    KernelKeepsWf(s, e);
    forall i | 0 <= i < |s.conns|
      ensures SendOk(s', i, queues[i]) && Receiving(s', i) == Bit(flags[i]) && RxOk(s'.conns[i], Finished(s', i))
    {
      assert !e.Take? ==> s.kernel[e.j] in s.kernel + s.sq + s.pending;
      KernelEffect(s, e, i);
      KernelKeepsRx(s, e, i);
      if e.SendDone? && s.kernel[e.j].idx == i {
        SubseqTail(Live(s, i), queues[i][Done(s, i)..]);
        assert queues[i][Done(s, i)..][1..] == queues[i][Done(s, i) + 1..];
      }
    }
  }

  // Runs of the kernel between two operations of the program

  ghost predicate KRun(s: Ring, steps: seq<KStep>, t: Ring)
    decreases |steps|
  {
    if steps == [] then s == t else KEnabled(s, steps[0]) && KRun(KNext(s, steps[0]), steps[1..], t)
  }

  ghost predicate KReaches(s: Ring, t: Ring) { exists steps :: KRun(s, steps, t) }

  /** The kernel touches neither the program's queues and maps nor what the program keeps of a connection. */
  predicate SameProgramSide(s: Ring, t: Ring) {
    && t.pending == s.pending && t.taken + t.sq == s.taken + s.sq && |t.sq| <= |s.sq| && SameConns(s, t)
  }

  predicate SameConns(s: Ring, t: Ring) {
    && |t.conns| == |s.conns|
    && forall i :: 0 <= i < |s.conns| ==>
         && t.conns[i].sendInFlight == s.conns[i].sendInFlight
         && t.conns[i].recvInFlight == s.conns[i].recvInFlight
         && t.conns[i].consumed == s.conns[i].consumed
         && s.conns[i].arrived <= t.conns[i].arrived
  }

  /** What the kernel does depends on nothing the program keeps in `pending`. */
  lemma {:induction false} KRunKeeps(s: Ring, steps: seq<KStep>, t: Ring, held: seq<Sqe>,
                                     queues: seq<seq<Buf>>, flags: seq<bool>)
    requires Inv(s.(pending := held), queues, flags) && KRun(s, steps, t)
    ensures Inv(t.(pending := held), queues, flags) && SameProgramSide(s, t)
    decreases |steps|
  {
    if steps != [] {
      KernelKeeps(s.(pending := held), steps[0], queues, flags);
      KernelSide(s, steps[0]);
      KRunKeeps(KNext(s, steps[0]), steps[1..], t, held, queues, flags);
    }
  }

  lemma KernelSide(s: Ring, e: KStep)
    requires KEnabled(s, e)
    ensures SameProgramSide(s, KNext(s, e))
    ensures forall held: seq<Sqe> :: KNext(s.(pending := held), e) == KNext(s, e).(pending := held)
  {
    if e.Take? {
      assert s.taken + s.sq == (s.taken + [s.sq[0]]) + s.sq[1..];
    }
  }

  lemma KReachesKeeps(s: Ring, t: Ring, held: seq<Sqe>, queues: seq<seq<Buf>>, flags: seq<bool>)
    requires Inv(s.(pending := held), queues, flags) && KReaches(s, t)
    ensures Inv(t.(pending := held), queues, flags) && SameProgramSide(s, t)
  {
    var steps :| KRun(s, steps, t);
    KRunKeeps(s, steps, t, held, queues, flags);
  }

  lemma {:induction false} KRunShorter(s: Ring, steps: seq<KStep>, t: Ring)
    requires KRun(s, steps, t)
    ensures |t.sq| <= |s.sq|
    decreases |steps|
  {
    if steps != [] { KRunShorter(KNext(s, steps[0]), steps[1..], t); }
  }

  lemma KReachesShorter(s: Ring, t: Ring)
    requires KReaches(s, t)
    ensures |t.sq| <= |s.sq|
  {
    var steps :| KRun(s, steps, t);
    KRunShorter(s, steps, t);
  }

  lemma {:induction false} KRunSnoc(s: Ring, steps: seq<KStep>, t: Ring, e: KStep)
    requires KRun(s, steps, t) && KEnabled(t, e)
    ensures KRun(s, steps + [e], KNext(t, e))
    decreases |steps|
  {
    if steps == [] {
      assert KRun(KNext(t, e), [], KNext(t, e));
      assert ([] + [e])[1..] == [];
    } else {
      assert (steps + [e])[1..] == steps[1..] + [e];
      KRunSnoc(KNext(s, steps[0]), steps[1..], t, e);
    }
  }

  lemma KReachesSnoc(s: Ring, t: Ring, e: KStep)
    requires KReaches(s, t) && KEnabled(t, e)
    ensures KReaches(s, KNext(t, e))
  {
    var steps :| KRun(s, steps, t);
    KRunSnoc(s, steps, t, e);
  }

  // Operations of the program

  /** `reap` on one completion. */
  function ReapOne(s: Ring): Ring
    requires s.cq != []
  {
    var c := s.cq[0];
    if c.key % 2 == OP_SEND
    then s.(cq := s.cq[1..], sends := s.sends[c.key := (if c.key in s.sends then s.sends[c.key] else 0) + 1])
    else s.(cq := s.cq[1..], recvs := s.recvs[c.key := c.result])
  }

  lemma ReapOneKeeps(s: Ring, queues: seq<seq<Buf>>, flags: seq<bool>)
    requires Inv(s, queues, flags) && s.cq != []
    ensures Inv(ReapOne(s), queues, flags)
    ensures s.cq[0].key % 2 == OP_RECV ==> s.cq[0].key !in s.recvs
  {
    var s', c := ReapOne(s), s.cq[0];
    assert c in s.cq;
    KeyBound(c.key / 2, |s.conns|);
    ReapOneView(s, c.key / 2);
    forall i | 0 <= i < |s.conns|
      ensures SendOk(s', i, queues[i]) && Receiving(s', i) == Bit(flags[i]) && RxOk(s'.conns[i], Finished(s', i))
    {
      assert SendOk(s, i, queues[i]);
      ReapOneView(s, i);
    }
  }

  /** Moving one completion into the maps changes no view, as long as at most one receive is outstanding. */
  lemma ReapOneView(s: Ring, i: nat)
    requires s.cq != [] && Receiving(s, i) <= 1
    ensures Live(ReapOne(s), i) == Live(s, i) && Done(ReapOne(s), i) == Done(s, i)
    ensures Receiving(ReapOne(s), i) == Receiving(s, i) && Finished(ReapOne(s), i) == Finished(s, i)
    ensures s.cq[0].key == Ud(i, OP_RECV) ==> s.cq[0].key !in s.recvs
  {
    UdCollides(i, OP_SEND, i, OP_RECV);
    UdCollides(i, OP_RECV, i, OP_SEND);
    ResultInSnoc(s.cq[1..], s.cq[0], Ud(i, OP_RECV));
  }

  /** `reap`: every completion is moved into the maps. */
  function ReapAll(s: Ring): Ring
    decreases |s.cq|
  {
    if s.cq == [] then s else ReapAll(ReapOne(s))
  }

  function Count(m: map<nat, nat>, key: nat): nat { if key in m then m[key] else 0 }

  /** No send completion is lost: the counters grow by exactly the completions found. */
  lemma {:induction false} ReapAllCounts(s: Ring, key: nat)
    requires key % 2 == OP_SEND
    ensures Count(ReapAll(s).sends, key) == Count(s.sends, key) + Completions(s.cq, key)
    decreases |s.cq|
  {
    if s.cq != [] { ReapAllCounts(ReapOne(s), key); }
  }

  lemma {:induction false} ReapAllKeeps(s: Ring, held: seq<Sqe>, queues: seq<seq<Buf>>, flags: seq<bool>)
    requires Inv(s.(pending := held), queues, flags)
    ensures Inv(ReapAll(s).(pending := held), queues, flags)
    ensures ReapAll(s) == s.(cq := [], sends := ReapAll(s).sends, recvs := ReapAll(s).recvs)
    decreases |s.cq|
  {
    if s.cq != [] {
      ReapOneKeeps(s.(pending := held), queues, flags);
      ReapAllKeeps(ReapOne(s), held, queues, flags);
    }
  }

  lemma {:induction false} NoCompletion(cq: seq<Cqe>, key: nat)
    requires forall c :: c in cq ==> c.key != key
    ensures Completions(cq, key) == 0 && ResultIn(cq, key).None?
    decreases |cq|
  {
    if cq != [] {
      assert cq[0] in cq;
      NoCompletion(cq[1..], key);
    }
  }

  lemma {:induction false} NoEntries(q: seq<Sqe>, i: nat)
    requires forall e :: e in q ==> e.idx != i
    ensures SendsOf(q, i) == [] && RecvsOf(q, i) == 0
    decreases |q|
  {
    if q != [] {
      assert q[0] in q;
      NoEntries(q[1..], i);
    }
  }

  /** The views of a connection are those of the queues and maps alone. */
  lemma ConnsApart(s: Ring, conns: seq<Conn>, i: nat, queue: seq<Buf>)
    ensures var t := s.(conns := conns);
            && (SendOk(t, i, queue) <==> SendOk(s, i, queue))
            && Receiving(t, i) == Receiving(s, i) && Finished(t, i) == Finished(s, i)
  {
    var t := s.(conns := conns);
    assert Live(t, i) == Live(s, i) && Done(t, i) == Done(s, i);
  }

  lemma NewIndexIsIdle(s: Ring)
    requires Wf(s) && |s.conns| < U63
    ensures SendOk(s, |s.conns|, []) && Receiving(s, |s.conns|) == 0 && Finished(s, |s.conns|).None?
  {
    var n := |s.conns|;
    KeyBound(n, n + 1);
    NoCompletion(s.cq, Ud(n, OP_SEND));
    NoCompletion(s.cq, Ud(n, OP_RECV));
    NoEntries(s.kernel + s.sq + s.pending, n);
    forall e | e in s.kernel + s.sq ensures e in s.kernel + s.sq + s.pending {}
    NoEntries(s.kernel + s.sq, n);
  }

  lemma ConnectKeepsWf(s: Ring, c: Conn)
    requires Wf(s) && |s.conns| < U63 && |c.rxBuf| == RX_CAP
    ensures Wf(s.(conns := s.conns + [c]))
  {
  }

  /** A new connection starts with nothing in any queue. */
  lemma ConnectKeeps(s: Ring, rx: seq<byte>)
    requires Valid(s) && |rx| == RX_CAP && |s.conns| < U63
    ensures Valid(s.(conns := s.conns + [Conn(false, [], rx, [], [])]))
  {
    var n, c := |s.conns|, Conn(false, [], rx, [], []);
    var t := s.(conns := s.conns + [c]);
    ConnectKeepsWf(s, c);
    NewIndexIsIdle(s);
    assert Queues(t) == Queues(s) + [[]];
    assert Flags(t) == Flags(s) + [false];
    forall i | 0 <= i <= n
      ensures SendOk(t, i, Queues(t)[i]) && Receiving(t, i) == Bit(Flags(t)[i]) && RxOk(t.conns[i], Finished(t, i))
    {
      ConnsApart(s, t.conns, i, Queues(t)[i]);
      assert i < n ==> SendOk(s, i, Queues(s)[i]);
    }
  }

  /** A buffer joins the staging queue; nothing points to it yet. */
  lemma StageKeeps(s: Ring, queues: seq<seq<Buf>>, flags: seq<bool>, i: nat, b: Buf)
    requires Inv(s, queues, flags) && i < |s.conns|
    ensures Inv(s, queues[i := queues[i] + [b]], flags)
  {
    SubseqBehind(Live(s, i), queues[i], Done(s, i), b);
  }

  /** One more entry at the end of the queues; a send takes its buffer's place at the end of the staging queue. */
  lemma AppendKeepsSends(s: Ring, t: Ring, e: Sqe, i: nat, queue: seq<Buf>)
    requires t.kernel + t.sq + t.pending == s.kernel + s.sq + s.pending + [e]
    requires t.cq == s.cq && t.sends == s.sends && SendOk(s, i, queue)
    ensures SendOk(t, i, if e.SendSqe? && e.idx == i then queue + [e.buf] else queue)
  {
    SendsOfConcat(s.kernel + s.sq + s.pending, [e], i);
    OneSqe(e, i);
    assert Done(t, i) == Done(s, i);
    if e.SendSqe? && e.idx == i {
      SubseqBehind(Live(s, i), queue, Done(s, i), e.buf);
      assert Live(t, i) == Live(s, i) + [e.buf];
    } else {
      assert Live(t, i) == Live(s, i);
    }
  }

  lemma {:induction false} SubseqBehind(a: seq<Buf>, queue: seq<Buf>, n: nat, x: Buf)
    requires n <= |queue| && Subseq(a, queue[n..])
    ensures Subseq(a, (queue + [x])[n..]) && Subseq(a + [x], (queue + [x])[n..])
  {
    SubseqSnoc(a, queue[n..], x);
    SubseqExtend(a, queue[n..], x);
    assert (queue + [x])[n..] == queue[n..] + [x];
  }

  lemma AppendReceiving(s: Ring, t: Ring, e: Sqe, i: nat)
    requires t.kernel + t.sq == s.kernel + s.sq + [e] && t.cq == s.cq && t.recvs == s.recvs
    ensures Receiving(t, i) == Receiving(s, i) + (if e.RecvSqe? && e.idx == i then 1 else 0)
  {
    RecvsOfConcat(s.kernel + s.sq, [e], i);
    OneSqe(e, i);
  }

  lemma SameEntriesKeepWf(s: Ring, t: Ring, e: Sqe)
    requires Wf(s) && e.idx < |s.conns| && |t.sq| <= RING_ENTRIES
    requires forall x :: x in t.kernel + t.sq + t.pending ==> x in s.kernel + s.sq + s.pending || x == e
    requires forall x :: x in t.pending ==> x in s.pending || x.SendSqe?
    requires t.cq == s.cq && t.sends == s.sends && t.recvs == s.recvs && t.conns == s.conns
    ensures Wf(t)
  {
  }

  /** A staged send becomes live at the end of `pending`. */
  lemma PendKeeps(s: Ring, queues: seq<seq<Buf>>, flags: seq<bool>, i: nat, b: Buf)
    requires Inv(s, queues, flags) && i < |s.conns|
    ensures Inv(s.(pending := s.pending + [SendSqe(i, b)]), queues[i := queues[i] + [b]], flags)
  {
    var e, t := SendSqe(i, b), s.(pending := s.pending + [SendSqe(i, b)]);
    assert t.kernel + t.sq + t.pending == s.kernel + s.sq + s.pending + [e];
    SameEntriesKeepWf(s, t, e);
    var queues' := queues[i := queues[i] + [b]];
    forall j | 0 <= j < |s.conns| ensures SendOk(t, j, queues'[j]) {
      AppendKeepsSends(s, t, e, j, queues[j]);
    }
  }

  /** A staged send is pushed to the submission queue while nothing is pending. */
  lemma PushKeeps(s: Ring, queues: seq<seq<Buf>>, flags: seq<bool>, i: nat, b: Buf)
    requires Inv(s, queues, flags) && i < |s.conns| && s.pending == [] && |s.sq| < RING_ENTRIES
    ensures Inv(s.(sq := s.sq + [SendSqe(i, b)]), queues[i := queues[i] + [b]], flags)
  {
    var e, t := SendSqe(i, b), s.(sq := s.sq + [SendSqe(i, b)]);
    var queues' := queues[i := queues[i] + [b]];
    assert t.kernel + t.sq + t.pending == s.kernel + s.sq + s.pending + [e];
    assert t.kernel + t.sq == s.kernel + s.sq + [e];
    SameEntriesKeepWf(s, t, e);
    forall j | 0 <= j < |s.conns| ensures SendOk(t, j, queues'[j]) && Receiving(t, j) == Receiving(s, j) {
      AppendKeepsSends(s, t, e, j, queues[j]);
      AppendReceiving(s, t, e, j);
    }
  }

  /** A receive joins the submission queue, ahead of pending sends, on a connection that has none outstanding. */
  lemma RecvKeeps(s: Ring, queues: seq<seq<Buf>>, flags: seq<bool>, i: nat)
    requires Inv(s, queues, flags) && i < |s.conns| && !flags[i] && |s.sq| < RING_ENTRIES
    ensures Inv(s.(sq := s.sq + [RecvSqe(i)]), queues, flags[i := true])
  {
    var e, t := RecvSqe(i), s.(sq := s.sq + [RecvSqe(i)]);
    assert t.kernel + t.sq == s.kernel + s.sq + [e];
    SameEntriesKeepWf(s, t, e);
    forall j | 0 <= j < |s.conns|
      ensures SendOk(t, j, queues[j]) && Receiving(t, j) == Receiving(s, j) + (if i == j then 1 else 0)
    {
      AppendReceiving(s, t, e, j);
      RecvKeepsLive(s, i, j);
    }
  }

  lemma RecvKeepsLive(s: Ring, i: nat, j: nat)
    ensures Live(s.(sq := s.sq + [RecvSqe(i)]), j) == Live(s, j)
  {
    var e := RecvSqe(i);
    assert s.kernel + (s.sq + [e]) == s.kernel + s.sq + [e];
    SendsOfConcat(s.kernel + s.sq, s.pending, j);
    SendsOfConcat(s.kernel + s.sq, [e], j);
    SendsOfConcat(s.kernel + s.sq + [e], s.pending, j);
    OneSqe(e, j);
  }

  /** The oldest pending entry moves to the submission queue. */
  lemma DrainKeeps(s: Ring, queues: seq<seq<Buf>>, flags: seq<bool>)
    requires Inv(s, queues, flags) && s.pending != [] && |s.sq| < RING_ENTRIES
    ensures Inv(s.(sq := s.sq + [s.pending[0]], pending := s.pending[1..]), queues, flags)
  {
    var e, t := s.pending[0], s.(sq := s.sq + [s.pending[0]], pending := s.pending[1..]);
    assert e in s.kernel + s.sq + s.pending;
    assert t.kernel + t.sq + t.pending == s.kernel + s.sq + s.pending;
    assert t.kernel + t.sq == s.kernel + s.sq + [e];
    SameEntriesKeepWf(s, t, e);
    forall j | 0 <= j < |s.conns| ensures SendOk(t, j, queues[j]) && Receiving(t, j) == Receiving(s, j) {
      AppendReceiving(s, t, e, j);
    }
  }

  /** An entry taken from `pending` and lost to a failed submit leaves an orphan buffer behind. */
  lemma DropKeeps(s: Ring, queues: seq<seq<Buf>>, flags: seq<bool>)
    requires Inv(s, queues, flags) && s.pending != []
    ensures Inv(s.(pending := s.pending[1..]), queues, flags)
  {
    var e, t := s.pending[0], s.(pending := s.pending[1..]);
    assert e in s.kernel + s.sq + s.pending;
    SameEntriesKeepWf(s, t, e);
    forall j | 0 <= j < |s.conns| ensures SendOk(t, j, queues[j]) {
      DropKeepsSends(s, j, queues[j]);
    }
  }

  lemma DropKeepsSends(s: Ring, i: nat, queue: seq<Buf>)
    requires s.pending != [] && SendOk(s, i, queue)
    ensures SendOk(s.(pending := s.pending[1..]), i, queue)
  {
    var front, e, t := s.kernel + s.sq, s.pending[0], s.(pending := s.pending[1..]);
    SendsOfConcat(front, s.pending, i);
    SendsOfConcat(front, t.pending, i);
    if e.SendSqe? && e.idx == i {
      SubseqWithout(SendsOf(front, i), e.buf, SendsOf(t.pending, i), queue[Done(s, i)..]);
    } else {
      assert SendsOf(s.pending, i) == SendsOf(t.pending, i);
    }
  }

  lemma {:induction false} SubseqWithout(a: seq<Buf>, x: Buf, c: seq<Buf>, b: seq<Buf>)
    requires Subseq(a + ([x] + c), b)
    ensures Subseq(a + c, b)
  {
    var d := a + ([x] + c);
    SubseqDrop(d, |a|, b);
    assert d[..|a|] + d[|a| + 1..] == a + c;
  }

  /** `reclaim_sends`: as many buffers leave the front of the queue as sends completed, and they are there. */
  lemma ReclaimKeeps(s: Ring, queues: seq<seq<Buf>>, flags: seq<bool>, i: nat)
    requires Inv(s, queues, flags) && i < |s.conns| && Ud(i, OP_SEND) in s.sends
    ensures s.sends[Ud(i, OP_SEND)] <= |queues[i]|
    ensures Inv(s.(sends := s.sends - {Ud(i, OP_SEND)}), queues[i := queues[i][s.sends[Ud(i, OP_SEND)]..]], flags)
  {
    var key := Ud(i, OP_SEND);
    var n, t := s.sends[key], s.(sends := s.sends - {key});
    assert SendOk(s, i, queues[i]);
    var queues' := queues[i := queues[i][n..]];
    forall j | 0 <= j < |s.conns| ensures SendOk(t, j, queues'[j]) {
      ReclaimKeepsSends(s, i, j, queues[j]);
    }
  }

  lemma ReclaimKeepsSends(s: Ring, i: nat, j: nat, queue: seq<Buf>)
    requires i < U63 && j < U63 && Ud(i, OP_SEND) in s.sends && SendOk(s, j, queue)
    ensures i == j ==> s.sends[Ud(i, OP_SEND)] <= |queue|
    ensures SendOk(s.(sends := s.sends - {Ud(i, OP_SEND)}), j,
                   if i == j then queue[s.sends[Ud(i, OP_SEND)]..] else queue)
  {
    SmallUd(i, j);
    if i == j {
      var n := s.sends[Ud(i, OP_SEND)];
      assert queue[n..][Done(s, i) - n..] == queue[Done(s, i)..];
    }
  }

  lemma ConsumeView(s: Ring, i: nat, j: nat)
    requires i < U63 && j < U63 && Ud(i, OP_RECV) in s.recvs && Receiving(s, j) <= 1
    ensures var t := s.(recvs := s.recvs - {Ud(i, OP_RECV)});
            && Live(t, j) == Live(s, j) && Done(t, j) == Done(s, j)
            && Receiving(t, j) == Receiving(s, j) - (if i == j then 1 else 0)
            && Finished(t, j) == if i == j then None else Finished(s, j)
  {
    SmallUd(i, j);
    ResultInSnoc(s.cq, Cqe(0, 0), Ud(j, OP_RECV));
  }

  /** A finished receive leaves its map. */
  lemma ForgetKeeps(s: Ring, queues: seq<seq<Buf>>, flags: seq<bool>, i: nat, c: Conn)
    requires Inv(s, queues, flags) && i < |s.conns| && Ud(i, OP_RECV) in s.recvs
    requires |c.rxBuf| == RX_CAP && RxOk(c, None)
    ensures Inv(s.(recvs := s.recvs - {Ud(i, OP_RECV)}, conns := s.conns[i := c]), queues, flags[i := false])
  {
    var u := s.(recvs := s.recvs - {Ud(i, OP_RECV)});
    var t := u.(conns := s.conns[i := c]);
    forall j | 0 <= j < |s.conns|
      ensures SendOk(t, j, queues[j]) && Receiving(t, j) == Bit(flags[i := false][j])
      ensures RxOk(t.conns[j], Finished(t, j))
    {
      ConsumeView(s, i, j);
      assert SendOk(u, j, queues[j]);
      ConnsApart(u, t.conns, j, queues[j]);
    }
  }

  /** A finished receive is consumed: its bytes are the next ones of the stream. */
  lemma ConsumeKeeps(s: Ring, queues: seq<seq<Buf>>, flags: seq<bool>, i: nat)
    requires Inv(s, queues, flags) && i < |s.conns| && Ud(i, OP_RECV) in s.recvs
    ensures flags[i]
    ensures s.recvs[Ud(i, OP_RECV)] <= RX_CAP
    ensures var c, n := s.conns[i], s.recvs[Ud(i, OP_RECV)];
            var data := if n < 0 then [] else c.rxBuf[..n];
            && c.arrived == c.consumed + data
            && Inv(s.(recvs := s.recvs - {Ud(i, OP_RECV)}, conns := s.conns[i := c.(consumed := c.consumed + data)]),
                   queues, flags[i := false])
  {
    var c, n := s.conns[i], s.recvs[Ud(i, OP_RECV)];
    var data := if n < 0 then [] else c.rxBuf[..n];
    assert RxOk(c, Some(n));
    assert c.arrived == c.consumed + data;
    ForgetKeeps(s, queues, flags, i, c.(consumed := c.consumed + data));
  }
}
