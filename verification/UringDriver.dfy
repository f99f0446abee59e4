/** The backend object of backend/io_uring.rs. Its methods run beside a kernel
    that takes and completes entries whenever the ring is entered or read, between
    the parts of `poll_recv` and between calls. */
module UringDriver {
  import opened Bytes
  import opened Uring

  datatype Wire = Stream | Datagram

  datatype RecvAnswer = Received(data: seq<byte>) | RecvError(errno: int) | SubmitError

  function Min(a: nat, b: nat): nat { if a < b then a else b }

  function Zeros(): seq<byte> { seq(RX_CAP, _ => 0) }

  /** The sends among the entries, in order. */
  function SendEntries(q: seq<Sqe>): seq<Sqe> {
    if q == [] then [] else (if q[0].SendSqe? then [q[0]] else []) + SendEntries(q[1..])
  }

  lemma {:induction false} SendEntriesConcat(a: seq<Sqe>, b: seq<Sqe>)
    ensures SendEntries(a + b) == SendEntries(a) + SendEntries(b)
    decreases |a|
  {
    if a == [] {
      assert a + b == b;
    } else {
      assert (a + b)[1..] == a[1..] + b && (a + b)[0] == a[0];
      SendEntriesConcat(a[1..], b);
      Assoc(if a[0].SendSqe? then [a[0]] else [], SendEntries(a[1..]), SendEntries(b));
    }
  }

  lemma {:induction false} AllSendEntries(q: seq<Sqe>)
    requires forall e :: e in q ==> e.SendSqe?
    ensures SendEntries(q) == q
    decreases |q|
  {
    if q != [] { AllSendEntries(q[1..]); }
  }

  lemma OneSendEntry(e: Sqe)
    ensures SendEntries([e]) == if e.SendSqe? then [e] else []
  {
    assert [e][1..] == [];
  }

  /** The invariant reads neither the staging queue nor the flag of a connection itself. */
  lemma StagingIsApart(s: Ring, queues: seq<seq<Buf>>, flags: seq<bool>, i: nat, staged: seq<Buf>, receiving: bool)
    requires Inv(s, queues, flags) && i < |s.conns|
    ensures var c := s.conns[i].(sendInFlight := staged, recvInFlight := receiving);
            Inv(s.(conns := s.conns[i := c]), queues, flags)
  {
    var t := s.(conns := s.conns[i := s.conns[i].(sendInFlight := staged, recvInFlight := receiving)]);
    forall j | 0 <= j < |s.conns|
      ensures SendOk(t, j, queues[j]) && Receiving(t, j) == Bit(flags[j]) && RxOk(t.conns[j], Finished(t, j))
    {
      ConnsApart(s, t.conns, j, queues[j]);
    }
  }

  lemma PushedLast(s: Ring, queues: seq<seq<Buf>>, flags: seq<bool>, i: nat, b: Buf)
    requires 0 < |s.sq| <= RING_ENTRIES && s.sq[|s.sq| - 1] == SendSqe(i, b) && i < |s.conns| && s.pending == []
    requires Inv(s.(sq := s.sq[..|s.sq| - 1]), queues, flags)
    ensures Inv(s, queues[i := queues[i] + [b]], flags)
  {
    PushKeeps(s.(sq := s.sq[..|s.sq| - 1]), queues, flags, i, b);
    assert s.sq[..|s.sq| - 1] + [SendSqe(i, b)] == s.sq;
  }

  lemma ValidFrom(t: Ring, queues: seq<seq<Buf>>, flags: seq<bool>)
    requires Inv(t, queues, flags)
    requires forall j :: 0 <= j < |t.conns| ==>
               queues[j] == t.conns[j].sendInFlight && flags[j] == t.conns[j].recvInFlight
    ensures Queues(t) == queues && Flags(t) == flags && Uring.Valid(t)
  {
    assert Queues(t) == queues;
    assert Flags(t) == flags;
  }

  lemma SameStaging(s: Ring, t: Ring)
    requires Inv(t, Queues(s), Flags(s)) && SameConns(s, t)
    ensures Queues(t) == Queues(s) && Flags(t) == Flags(s) && Uring.Valid(t)
  {
    ValidFrom(t, Queues(s), Flags(s));
  }

  function Staged(s: Ring, i: nat, b: Buf): Ring
    requires i < |s.conns|
  {
    s.(conns := s.conns[i := s.conns[i].(sendInFlight := s.conns[i].sendInFlight + [b])])
  }

  lemma StagedThenDispatched(s: Ring, i: nat, b: Buf, t: Ring)
    requires i < |s.conns| && SameConns(Staged(s, i, b), t)
    requires Inv(t, Queues(s)[i := Queues(s)[i] + [b]], Flags(s))
    ensures Uring.Valid(t) && SameTraffic(s, t)
    ensures Queues(t) == Queues(s)[i := s.conns[i].sendInFlight + [b]]
  {
    ValidFrom(t, Queues(s)[i := Queues(s)[i] + [b]], Flags(s));
  }

  function Armed(t: Ring, i: nat): Ring
    requires i < |t.conns|
  {
    t.(conns := t.conns[i := t.conns[i].(recvInFlight := true)])
  }

  lemma PushedThenArmed(s: Ring, t: Ring, i: nat)
    requires i < |s.conns| && !s.conns[i].recvInFlight && SameConns(s, t)
    requires 0 < |t.sq| <= RING_ENTRIES && t.sq[|t.sq| - 1] == RecvSqe(i)
    requires Inv(t.(sq := t.sq[..|t.sq| - 1]), Queues(s), Flags(s))
    ensures Uring.Valid(Armed(t, i)) && SameTraffic(s, Armed(t, i))
  {
    RecvKeeps(t.(sq := t.sq[..|t.sq| - 1]), Queues(s), Flags(s), i);
    assert t.sq[..|t.sq| - 1] + [RecvSqe(i)] == t.sq;
    StagingIsApart(t, Queues(s), Flags(s)[i := true], i, t.conns[i].sendInFlight, true);
    ValidFrom(Armed(t, i), Queues(s), Flags(s)[i := true]);
  }

  lemma {:induction false} PushedSends(before: seq<Sqe>, e: Sqe)
    ensures SendEntries(before + [e]) == SendEntries(before) + if e.SendSqe? then [e] else []
  {
    SendEntriesConcat(before, [e]);
    OneSendEntry(e);
  }

  lemma NothingPending(a: seq<Sqe>, b: seq<Sqe>, pending: seq<Sqe>, e: seq<Sqe>)
    requires pending == []
    ensures b == a + e ==> b + pending == a + pending + e
  {
  }

  /** As many buffers as completed leave the front of the staging queue. */
  function Reclaimed(s: Ring, i: nat): Ring
    requires i < |s.conns| && Count(s.sends, Ud(i, OP_SEND)) <= |s.conns[i].sendInFlight|
  {
    var key := Ud(i, OP_SEND);
    s.(sends := s.sends - {key},
       conns := s.conns[i := s.conns[i].(sendInFlight := s.conns[i].sendInFlight[Count(s.sends, key)..])])
  }

  lemma NeverAhead(s: Ring, i: nat)
    requires Uring.Valid(s) && i < |s.conns|
    ensures s.conns[i].consumed <= s.conns[i].arrived
  {
    assert RxOk(s.conns[i], Finished(s, i));
  }

  /** With no completion left, everything that arrived was consumed. */
  lemma NothingUnread(s: Ring, i: nat)
    requires Uring.Valid(s) && i < |s.conns| && s.cq == [] && Ud(i, OP_RECV) !in s.recvs
    ensures s.conns[i].consumed == s.conns[i].arrived
  {
    assert RxOk(s.conns[i], Finished(s, i));
  }

  /** A finished receive is taken and the connection is free to receive again. */
  function Consumed(s: Ring, i: nat): Ring
    requires i < |s.conns| && Ud(i, OP_RECV) in s.recvs && s.recvs[Ud(i, OP_RECV)] <= |s.conns[i].rxBuf|
  {
    var key, c := Ud(i, OP_RECV), s.conns[i];
    var n := s.recvs[key];
    var data := if n < 0 then [] else c.rxBuf[..n];
    s.(recvs := s.recvs - {key}, conns := s.conns[i := c.(recvInFlight := false, consumed := c.consumed + data)])
  }

  lemma ConsumedIsValid(s: Ring, i: nat)
    requires Uring.Valid(s) && i < |s.conns| && Ud(i, OP_RECV) in s.recvs
    ensures s.recvs[Ud(i, OP_RECV)] <= |s.conns[i].rxBuf|
    ensures Uring.Valid(Consumed(s, i)) && Queues(Consumed(s, i)) == Queues(s)
    ensures Consumed(s, i).conns[i].consumed == s.conns[i].arrived
  {
    ConsumeKeeps(s, Queues(s), Flags(s), i);
    var c, n := s.conns[i], s.recvs[Ud(i, OP_RECV)];
    var data := if n < 0 then [] else c.rxBuf[..n];
    var u := s.(recvs := s.recvs - {Ud(i, OP_RECV)}, conns := s.conns[i := c.(consumed := c.consumed + data)]);
    StagingIsApart(u, Queues(s), Flags(s)[i := false], i, c.sendInFlight, false);
    var t := Consumed(s, i);
    assert t == u.(conns := u.conns[i := u.conns[i].(sendInFlight := c.sendInFlight, recvInFlight := false)]);
    ValidFrom(t, Queues(s), Flags(s)[i := false]);
  }

  lemma ReclaimedIsValid(s: Ring, i: nat)
    requires Uring.Valid(s) && i < |s.conns|
    ensures Count(s.sends, Ud(i, OP_SEND)) <= |s.conns[i].sendInFlight|
    ensures Uring.Valid(Reclaimed(s, i))
  {
    var key, q := Ud(i, OP_SEND), s.conns[i].sendInFlight;
    if key in s.sends {
      var n := s.sends[key];
      ReclaimKeeps(s, Queues(s), Flags(s), i);
      var rest := Queues(s)[i := q[n..]];
      StagingIsApart(s.(sends := s.sends - {key}), rest, Flags(s), i, q[n..], s.conns[i].recvInFlight);
      var t := Reclaimed(s, i);
      assert Queues(t) == Queues(s)[i := q[n..]];
      assert Flags(t) == Flags(s);
    } else {
      assert Reclaimed(s, i) == s;
    }
  }

  /** No connection lost bytes already received or consumed any. */
  predicate SameTraffic(s: Ring, t: Ring) {
    && |t.conns| == |s.conns|
    && forall i :: 0 <= i < |s.conns| ==>
         t.conns[i].consumed == s.conns[i].consumed && s.conns[i].arrived <= t.conns[i].arrived
  }

  predicate OnlyConsumes(s: Ring, t: Ring, i: nat) {
    && t.pending == s.pending && t.taken == s.taken && t.sq == s.sq && |t.conns| == |s.conns|
    && forall j :: 0 <= j < |s.conns| && j != i ==> t.conns[j] == s.conns[j]
  }

  lemma AppendNone<T>(s: seq<T>)
    ensures s + [] == s
  {
  }

  class IoUring {
    const mode: Mode
    const sqpoll: bool
    /** Whether every successful submit takes the whole submission queue; otherwise it takes at least one entry. */
    const greedy: bool
    var pending: seq<Sqe>
    var completedSends: map<nat, nat>
    var completedRecvs: map<nat, int>
    var sq: seq<Sqe>
    var taken: seq<Sqe>
    var kernel: seq<Sqe>
    var cq: seq<Cqe>
    var conns: seq<Conn>
    /** The sends `Submit` accepted, in call order. */
    ghost var submitted: seq<Sqe>
    /** Whether every call so far succeeded. */
    ghost var clean: bool

    function View(): Ring
      reads this
    {
      Ring(pending, completedSends, completedRecvs, sq, taken, kernel, cq, conns)
    }

    /** What the kernel can have been given, followed by what is still pending. */
    ghost function Outbound(): seq<Sqe>
      reads this
    {
      SendEntries(taken + sq) + pending
    }

    ghost predicate Valid()
      reads this
    {
      && Uring.Valid(View())
      && (mode.SqeStream? ==> pending == [])
      && (clean ==> Outbound() == submitted)
    }

    constructor (mode: Mode, sqpoll: bool, greedy: bool)
      ensures Valid() && this.mode == mode && this.sqpoll == sqpoll && this.greedy == greedy
      ensures conns == [] && submitted == [] && clean
    {
      this.mode, this.sqpoll, this.greedy := mode, sqpoll, greedy;
      pending, completedSends, completedRecvs := [], map[], map[];
      sq, taken, kernel, cq, conns := [], [], [], [], [];
      submitted, clean := [], true;
    }

    // The kernel's side

    method Load(t: Ring)
      requires t.pending == pending && t.sends == completedSends && t.recvs == completedRecvs
      modifies `sq, `taken, `kernel, `cq, `conns
      ensures View() == t
    {
      sq, taken, kernel, cq, conns := t.sq, t.taken, t.kernel, t.cq, t.conns;
    }

    /** Any number of kernel steps. */
    method KernelRuns()
      modifies `sq, `taken, `kernel, `cq, `conns
      ensures KReaches(old(View()), View())
    {
      assert KRun(View(), [], View());
      var n: nat := *;
      while n > 0
        invariant KReaches(old(View()), View())
      {
        var e: KStep := *;
        if KEnabled(View(), e) {
          KReachesSnoc(old(View()), View(), e);
          Load(KNext(View(), e));
        }
        n := n - 1;
      }
    }

    /** The kernel takes entries: all of them, or at least one. */
    method TakeEntries(all: bool)
      modifies `sq, `taken, `kernel, `cq, `conns
      ensures KReaches(old(View()), View())
      ensures sq == [] || (!all && |sq| < old(|sq|))
    {
      var n := |sq|;
      KernelRuns();
      KReachesShorter(old(View()), View());
      while sq != [] && (all || |sq| == n)
        invariant KReaches(old(View()), View()) && |sq| <= n
        decreases |sq|
      {
        KReachesSnoc(old(View()), View(), Take);
        Load(KNext(View(), Take));
      }
    }

    /** `submit` of the ring. */
    method Enter() returns (ok: bool)
      modifies `sq, `taken, `kernel, `cq, `conns
      ensures KReaches(old(View()), View())
      ensures ok ==> sq == [] || (!greedy && |sq| < old(|sq|))
    {
      ok := *;
      if ok {
        TakeEntries(greedy);
      } else {
        KernelRuns();
      }
    }

    method FlushSubmit() returns (ok: bool)
      modifies `sq, `taken, `kernel, `cq, `conns
      ensures KReaches(old(View()), View())
      ensures ok && !sqpoll ==> sq == [] || (!greedy && |sq| < old(|sq|))
    {
      if !sqpoll {
        ok := Enter();
      } else {
        KernelRuns();
        ok := true;
      }
    }

    method Reap() returns (ghost found: Ring)
      modifies `completedSends, `completedRecvs, `sq, `taken, `kernel, `cq, `conns
      ensures KReaches(old(View()), found) && View() == ReapAll(found)
    {
      KernelRuns();
      found := View();
      while cq != []
        invariant ReapAll(View()) == ReapAll(found)
        decreases |cq|
      {
        var c := cq[0];
        ghost var before := View();
        cq := cq[1..];
        if c.key % 2 == OP_SEND {
          completedSends := completedSends[c.key := (if c.key in completedSends then completedSends[c.key] else 0) + 1];
        } else {
          completedRecvs := completedRecvs[c.key := c.result];
        }
        assert View() == ReapOne(before);
      }
    }

    // The program's side

    /** `flush_submit()?; reap()`. */
    method FlushAndReap(ghost held: seq<Sqe>, ghost queues: seq<seq<Buf>>, ghost flags: seq<bool>) returns (ok: bool)
      requires Inv(View().(pending := held), queues, flags)
      modifies `completedSends, `completedRecvs, `sq, `taken, `kernel, `cq, `conns
      ensures Inv(View().(pending := held), queues, flags) && SameProgramSide(old(View()), View())
      ensures ok && !sqpoll ==> sq == [] || (!greedy && |sq| < old(|sq|))
      ensures ok ==> cq == []
    {
      ghost var s := View();
      ok := FlushSubmit();
      KReachesKeeps(s, View(), held, queues, flags);
      if ok {
        ghost var flushed := View();
        ghost var found := Reap();
        KReachesKeeps(flushed, found, held, queues, flags);
        ReapAllKeeps(found, held, queues, flags);
      }
    }

    /** `held` is what counts as pending meanwhile: in `DrainPending` it includes the entry being pushed. */
    method PushSqe(e: Sqe, ghost held: seq<Sqe>, ghost queues: seq<seq<Buf>>, ghost flags: seq<bool>) returns (ok: bool)
      requires Inv(View().(pending := held), queues, flags)
      modifies `completedSends, `completedRecvs, `sq, `taken, `kernel, `cq, `conns
      ensures SameConns(old(View()), View())
      ensures taken + sq == old(taken + sq) + if ok then [e] else []
      ensures !ok ==> Inv(View().(pending := held), queues, flags)
      ensures ok ==> 0 < |sq| <= RING_ENTRIES && sq[|sq| - 1] == e
      ensures ok ==> Inv(View().(pending := held, sq := sq[..|sq| - 1]), queues, flags)
    {
      while |sq| >= RING_ENTRIES
        invariant Inv(View().(pending := held), queues, flags)
        invariant SameProgramSide(old(View()), View())
        decreases |sq|
      {
        ok := FlushAndReap(held, queues, flags);
        if !ok { return; }
        if sqpoll && |sq| >= RING_ENTRIES {
          // the loop spins until the kernel's polling thread has taken entries
          ghost var s := View();
          TakeEntries(false);
          KReachesKeeps(s, View(), held, queues, flags);
        }
      }
      ok := true;
      ghost var s := View();
      sq := sq + [e];
      assert sq[..|sq| - 1] == s.sq;
      assert taken + sq == s.taken + s.sq + [e];
    }

    method DrainPending(ghost queues: seq<seq<Buf>>, ghost flags: seq<bool>) returns (ok: bool)
      requires Inv(View(), queues, flags)
      modifies `pending, `completedSends, `completedRecvs, `sq, `taken, `kernel, `cq, `conns
      ensures Inv(View(), queues, flags) && SameConns(old(View()), View())
      ensures ok ==> pending == [] && taken + sq == old(taken + sq + pending)
    {
      ok := true;
      while pending != []
        invariant Inv(View(), queues, flags) && SameConns(old(View()), View())
        invariant taken + sq + pending == old(taken + sq + pending)
        decreases |pending|
      {
        ghost var held := pending;
        ghost var s := View();
        var e := pending[0];
        pending := pending[1..];
        assert View().(pending := held) == s;
        ok := PushSqe(e, held, queues, flags);
        if !ok {
          DropKeeps(View().(pending := held), queues, flags);
          return;
        }
        DrainKeeps(View().(pending := held, sq := sq[..|sq| - 1]), queues, flags);
        assert sq[..|sq| - 1] + [e] == sq;
        assert taken + sq + pending == s.taken + s.sq + held;
      }
    }

    method DriveInner(ghost queues: seq<seq<Buf>>, ghost flags: seq<bool>) returns (ok: bool)
      requires Inv(View(), queues, flags) && (mode.SqeStream? ==> pending == [])
      modifies `pending, `completedSends, `completedRecvs, `sq, `taken, `kernel, `cq, `conns
      ensures Inv(View(), queues, flags) && SameConns(old(View()), View())
      ensures mode.SqeStream? ==> pending == []
      ensures ok ==> pending == [] && cq == [] && taken + sq == old(taken + sq + pending)
      ensures ok && greedy && !sqpoll ==> sq == []
    {
      ghost var s := View();
      if mode == BatchSyscall {
        ok := DrainPending(queues, flags);
        if !ok { return; }
      }
      assert pending == [] && taken + sq == s.taken + s.sq + s.pending;
      ok := FlushAndReap(pending, queues, flags);
    }

    method ReclaimSends(i: nat)
      requires Uring.Valid(View()) && i < |conns|
      modifies `completedSends, `conns
      ensures Uring.Valid(View())
      ensures Count(old(completedSends), Ud(i, OP_SEND)) <= |old(conns[i].sendInFlight)|
      ensures View() == Reclaimed(old(View()), i)
    {
      var key := Ud(i, OP_SEND);
      ghost var s, q := View(), conns[i].sendInFlight;
      ReclaimedIsValid(s, i);
      if key in completedSends {
        var n := completedSends[key];
        completedSends := completedSends - {key};
        for k := 0 to n
          invariant completedSends == s.sends - {key}
          invariant conns == s.conns[i := s.conns[i].(sendInFlight := q[k..])]
        {
          // never empty here: a completed send's buffer is still queued
          assert conns[i].sendInFlight != [];
          conns := conns[i := conns[i].(sendInFlight := conns[i].sendInFlight[1..])];
        }
      } else {
        assert completedSends == completedSends - {key};
        assert conns == conns[i := conns[i].(sendInFlight := q[0..])];
      }
    }

    method Connect() returns (i: nat)
      requires Valid() && |conns| < U63
      modifies `conns
      ensures Valid() && i == old(|conns|) && conns == old(conns) + [Conn(false, [], Zeros(), [], [])]
    {
      ConnectKeeps(View(), Zeros());
      i := |conns|;
      conns := conns + [Conn(false, [], Zeros(), [], [])];
    }

    /** The stream-mode half of `submit`, after the buffer was staged. */
    method PushAndFlush(i: nat, b: Buf, ghost queues: seq<seq<Buf>>, ghost flags: seq<bool>) returns (ok: bool)
      requires Inv(View(), queues, flags) && i < |conns| && pending == []
      modifies `completedSends, `completedRecvs, `sq, `taken, `kernel, `cq, `conns
      ensures Inv(View(), queues[i := queues[i] + [b]], flags) && SameConns(old(View()), View())
      ensures ok ==> taken + sq == old(taken + sq) + [SendSqe(i, b)]
      ensures ok && greedy && !sqpoll ==> sq == []
    {
      ok := PushSqe(SendSqe(i, b), pending, queues, flags);
      if !ok {
        StageKeeps(View(), queues, flags, i, b);
        return;
      }
      ghost var s, queues' := View(), queues[i := queues[i] + [b]];
      PushedLast(s, queues, flags, i, b);
      ok := FlushSubmit();
      KReachesKeeps(s, View(), pending, queues', flags);
    }

    /** The end of `submit`: the entry goes to the ring or to `pending`. */
    method Dispatch(i: nat, b: Buf, ghost queues: seq<seq<Buf>>, ghost flags: seq<bool>) returns (ok: bool)
      requires Inv(View(), queues, flags) && i < |conns| && (mode.SqeStream? ==> pending == [])
      modifies `pending, `completedSends, `completedRecvs, `sq, `taken, `kernel, `cq, `conns
      ensures Inv(View(), queues[i := queues[i] + [b]], flags) && SameConns(old(View()), View())
      ensures mode.SqeStream? ==> pending == []
      ensures ok ==> Outbound() == old(Outbound()) + [SendSqe(i, b)]
      ensures ok && greedy && mode.SqeStream? && !sqpoll ==> sq == []
    {
      if mode == SqeStream {
        ghost var sent := taken + sq;
        ok := PushAndFlush(i, b, queues, flags);
        PushedSends(sent, SendSqe(i, b));
        NothingPending(SendEntries(sent), SendEntries(taken + sq), pending, [SendSqe(i, b)]);
      } else {
        PendKeeps(View(), queues, flags, i, b);
        Assoc(SendEntries(taken + sq), pending, [SendSqe(i, b)]);
        pending := pending + [SendSqe(i, b)];
        ok := true;
      }
    }

    /** `b` is the staged copy of the caller's bytes. An accepted send follows all earlier ones to the kernel. */
    method Submit(i: nat, wire: Wire, b: Buf) returns (ok: bool)
      requires Valid() && i < |conns|
      modifies this
      ensures Valid() && SameTraffic(old(View()), View())
      ensures wire.Datagram? ==> !ok && View() == old(View()) && clean == old(clean)
      ensures wire.Stream? ==> clean == (old(clean) && ok)
      ensures wire.Stream? ==> Queues(View()) == Queues(old(View()))[i := old(conns[i].sendInFlight) + [b]]
      ensures submitted == old(submitted) + if ok then [SendSqe(i, b)] else []
      ensures ok && greedy && mode.SqeStream? && !sqpoll ==> sq == []
    {
      if wire.Datagram? { return false; }
      ghost var s := View();
      StagingIsApart(s, Queues(s), Flags(s), i, s.conns[i].sendInFlight + [b], s.conns[i].recvInFlight);
      conns := conns[i := conns[i].(sendInFlight := conns[i].sendInFlight + [b])];
      assert View() == Staged(s, i, b);
      ok := Dispatch(i, b, Queues(s), Flags(s));
      StagedThenDispatched(s, i, b, View());
      clean := clean && ok;
      submitted := submitted + if ok then [SendSqe(i, b)] else [];
    }

    /** Issues a receive on a connection that has none outstanding. */
    method IssueRecv(i: nat) returns (ok: bool)
      requires Uring.Valid(View()) && i < |conns| && !conns[i].recvInFlight
      modifies `completedSends, `completedRecvs, `sq, `taken, `kernel, `cq, `conns
      ensures Uring.Valid(View()) && SameTraffic(old(View()), View())
      ensures ok ==> conns[i].recvInFlight
      ensures taken + sq == old(taken + sq) + if ok then [RecvSqe(i)] else []
    {
      ghost var s := View();
      ok := PushSqe(RecvSqe(i), pending, Queues(s), Flags(s));
      if !ok {
        SameStaging(s, View());
        return;
      }
      PushedThenArmed(s, View(), i);
      conns := conns[i := conns[i].(recvInFlight := true)];
    }

    method ArmRecv(i: nat) returns (ok: bool)
      requires Uring.Valid(View()) && i < |conns|
      modifies `completedSends, `completedRecvs, `sq, `taken, `kernel, `cq, `conns
      ensures Uring.Valid(View()) && SameTraffic(old(View()), View())
      ensures ok ==> conns[i].recvInFlight
      ensures ok ==> taken + sq == old(taken + sq) + if old(conns[i].recvInFlight) then [] else [RecvSqe(i)]
      ensures Outbound() == old(Outbound())
    {
      ok := true;
      if !conns[i].recvInFlight {
        ghost var before := taken + sq;
        ok := IssueRecv(i);
        PushedSends(before, RecvSqe(i));
      }
      AppendNone(old(taken + sq));
    }

    method DriveAll() returns (ok: bool)
      requires Uring.Valid(View()) && (mode.SqeStream? ==> pending == [])
      modifies `pending, `completedSends, `completedRecvs, `sq, `taken, `kernel, `cq, `conns
      ensures Uring.Valid(View()) && SameConns(old(View()), View())
      ensures mode.SqeStream? ==> pending == []
      ensures ok ==> pending == [] && cq == [] && Outbound() == old(Outbound())
      ensures ok ==> taken + sq == old(taken + sq + pending)
      ensures ok && greedy && !sqpoll ==> sq == []
    {
      ghost var s := View();
      ok := DriveInner(Queues(s), Flags(s));
      SameStaging(s, View());
      SendEntriesConcat(s.taken + s.sq, s.pending);
      AllSendEntries(s.pending);
    }

    /** Takes a finished receive; a buffer of 4096 bytes or more gets everything that arrived. */
    method TakeRecv(i: nat, capacity: nat) returns (r: RecvAnswer)
      requires Uring.Valid(View()) && i < |conns|
      modifies `completedRecvs, `conns
      ensures Uring.Valid(View()) && Queues(View()) == Queues(old(View())) && OnlyConsumes(old(View()), View(), i)
      ensures !r.SubmitError? && Ud(i, OP_RECV) !in completedRecvs
      ensures r.RecvError? <==> Ud(i, OP_RECV) in old(completedRecvs) && old(completedRecvs)[Ud(i, OP_RECV)] < 0
      ensures r.RecvError? ==> r.errno == -old(completedRecvs)[Ud(i, OP_RECV)]
      ensures r.RecvError? ==> conns[i].consumed == old(conns[i].consumed)
      ensures Ud(i, OP_RECV) !in old(completedRecvs) ==> r == Received([]) && View() == old(View())
      ensures Ud(i, OP_RECV) in old(completedRecvs) ==> conns[i].consumed == conns[i].arrived == old(conns[i].arrived)
      ensures conns[i].sendInFlight == old(conns[i].sendInFlight)
      ensures r.Received? ==> old(conns[i].consumed) + r.data <= conns[i].consumed
      ensures r.Received? ==> |r.data| == Min(capacity, |conns[i].consumed| - |old(conns[i].consumed)|)
      ensures r.Received? && RX_CAP <= capacity ==> conns[i].consumed == old(conns[i].consumed) + r.data
    {
      var key := Ud(i, OP_RECV);
      if key !in completedRecvs { return Received([]); }
      ghost var s := View();
      ConsumedIsValid(s, i);
      var n := completedRecvs[key];
      var data := if n < 0 then [] else conns[i].rxBuf[..n];
      completedRecvs := completedRecvs - {key};
      conns := conns[i := conns[i].(recvInFlight := false, consumed := conns[i].consumed + data)];
      assert View() == Consumed(s, i);
      if n < 0 { return RecvError(-n); }
      if n == 0 { return Received([]); }
      r := Received(conns[i].rxBuf[..Min(n, capacity)]);
      assert r.data == data[..Min(n, capacity)];
    }

    /** The first half of `poll_recv`: a receive is outstanding and everything pending was driven out. */
    method ArmAndDrive(i: nat) returns (ok: bool)
      requires Uring.Valid(View()) && i < |conns| && (mode.SqeStream? ==> pending == [])
      modifies `pending, `completedSends, `completedRecvs, `sq, `taken, `kernel, `cq, `conns
      ensures Uring.Valid(View()) && SameTraffic(old(View()), View())
      ensures mode.SqeStream? ==> pending == []
      ensures ok ==> pending == [] && cq == [] && Outbound() == old(Outbound())
      ensures ok ==> Receiving(View(), i) == 1
      ensures ok ==>
                taken + sq == old(taken + sq) + (if old(conns[i].recvInFlight) then [] else [RecvSqe(i)]) + old(pending)
    {
      ok := ArmRecv(i);
      if ok {
        ok := DriveAll();
        assert Receiving(View(), i) == Bit(Flags(View())[i]);
      }
    }

    /** The kernel runs while the program does not touch the ring. */
    method Meanwhile()
      requires Valid()
      modifies `sq, `taken, `kernel, `cq, `conns
      ensures Valid() && SameConns(old(View()), View())
    {
      ghost var s := View();
      KernelRuns();
      KReachesKeeps(s, View(), pending, Queues(s), Flags(s));
      SameStaging(s, View());
    }

    /** The middle of `poll_recv`, with the kernel at work around it. */
    method ReclaimFound(i: nat)
      requires Valid() && i < |conns| && cq == []
      modifies `completedSends, `sq, `taken, `kernel, `cq, `conns
      ensures Valid() && SameTraffic(old(View()), View())
      ensures Done(old(View()), i) <= |old(conns[i].sendInFlight)|
      ensures conns[i].sendInFlight == old(conns[i].sendInFlight)[Done(old(View()), i)..]
    {
      assert SendOk(View(), i, Queues(View())[i]);
      Meanwhile();
      ReclaimSends(i);
      Meanwhile();
    }

    /** The end of `poll_recv`, with the kernel at work after it. */
    method TakeFound(i: nat, capacity: nat) returns (r: RecvAnswer)
      requires Valid() && i < |conns|
      modifies `completedRecvs, `sq, `taken, `kernel, `cq, `conns
      ensures Valid() && !r.SubmitError? && |conns| == old(|conns|)
      ensures r.RecvError? <==> Ud(i, OP_RECV) in old(completedRecvs) && old(completedRecvs)[Ud(i, OP_RECV)] < 0
      ensures r.RecvError? ==> r.errno == -old(completedRecvs)[Ud(i, OP_RECV)]
      ensures forall j :: 0 <= j < |conns| && j != i ==> conns[j].consumed == old(conns[j].consumed)
      ensures conns[i].sendInFlight == old(conns[i].sendInFlight) && conns[i].consumed <= conns[i].arrived
      ensures Ud(i, OP_RECV) in old(completedRecvs) ==> conns[i].consumed == old(conns[i].arrived)
      ensures Ud(i, OP_RECV) !in old(completedRecvs) ==> conns[i].consumed == old(conns[i].consumed)
      ensures !r.Received? ==> conns[i].consumed == old(conns[i].consumed)
      ensures r.Received? ==> old(conns[i].consumed) + r.data <= conns[i].consumed
      ensures r.Received? ==> |r.data| == Min(capacity, |conns[i].consumed| - |old(conns[i].consumed)|)
      ensures r.Received? && RX_CAP <= capacity ==> conns[i].consumed == old(conns[i].consumed) + r.data
    {
      r := TakeRecv(i, capacity);
      Meanwhile();
      NeverAhead(View(), i);
    }

    /** `poll_recv` from the reap on. */
    method Settle(i: nat, capacity: nat) returns (r: RecvAnswer)
      requires Valid() && i < |conns| && cq == []
      modifies `completedSends, `completedRecvs, `sq, `taken, `kernel, `cq, `conns
      ensures Valid() && !r.SubmitError? && |conns| == old(|conns|)
      ensures forall j :: 0 <= j < |conns| && j != i ==> conns[j].consumed == old(conns[j].consumed)
      ensures !r.Received? ==> conns[i].consumed == old(conns[i].consumed)
      ensures r.Received? ==> old(conns[i].consumed) + r.data <= conns[i].consumed
      ensures r.Received? ==> |r.data| == Min(capacity, |conns[i].consumed| - |old(conns[i].consumed)|)
      ensures r.Received? && RX_CAP <= capacity ==> conns[i].consumed == old(conns[i].consumed) + r.data
      ensures r.RecvError? <==> Ud(i, OP_RECV) in old(completedRecvs) && old(completedRecvs)[Ud(i, OP_RECV)] < 0
      ensures r.RecvError? ==> r.errno == -old(completedRecvs)[Ud(i, OP_RECV)]
      ensures old(conns[i].arrived) <= conns[i].consumed <= conns[i].arrived
      ensures Done(old(View()), i) <= |old(conns[i].sendInFlight)|
      ensures conns[i].sendInFlight == old(conns[i].sendInFlight)[Done(old(View()), i)..]
    {
      if Ud(i, OP_RECV) !in completedRecvs { NothingUnread(View(), i); }
      ReclaimFound(i);
      r := TakeFound(i, capacity);
    }

    /** `found` is the ring as the reap left it. What had arrived by then is consumed, and the buffers of the sends
        completed by then are gone; what the kernel does afterwards is left for the next call. */
    method PollRecv(i: nat, capacity: nat) returns (r: RecvAnswer, ghost found: Ring)
      requires Valid() && i < |conns|
      modifies this
      ensures Valid() && submitted == old(submitted)
      ensures clean == (old(clean) && !r.SubmitError?)
      ensures !r.SubmitError? ==> pending == []
      ensures |conns| == old(|conns|)
      ensures forall j :: 0 <= j < |conns| && j != i ==> conns[j].consumed == old(conns[j].consumed)
      ensures !r.Received? ==> conns[i].consumed == old(conns[i].consumed)
      ensures r.Received? ==> old(conns[i].consumed) + r.data <= conns[i].consumed
      ensures r.Received? ==> |r.data| == Min(capacity, |conns[i].consumed| - |old(conns[i].consumed)|)
      ensures r.Received? && RX_CAP <= capacity ==> conns[i].consumed == old(conns[i].consumed) + r.data
      ensures Uring.Valid(found) && SameTraffic(old(View()), found)
      ensures !r.SubmitError? ==> Receiving(found, i) == 1
      ensures !r.SubmitError? ==>
                found.taken + found.sq
                == old(taken + sq) + (if old(conns[i].recvInFlight) then [] else [RecvSqe(i)]) + old(pending)
      ensures !r.SubmitError? ==> (r.RecvError? <==> Ud(i, OP_RECV) in found.recvs && found.recvs[Ud(i, OP_RECV)] < 0)
      ensures r.RecvError? ==> r.errno == -found.recvs[Ud(i, OP_RECV)]
      ensures !r.SubmitError? ==> found.cq == [] && found.conns[i].arrived <= conns[i].consumed <= conns[i].arrived
      ensures !r.SubmitError? ==> Done(found, i) <= |found.conns[i].sendInFlight|
      ensures !r.SubmitError? ==> conns[i].sendInFlight == found.conns[i].sendInFlight[Done(found, i)..]
    {
      var ok := ArmAndDrive(i);
      found := View();
      if !ok {
        clean := false;
        return SubmitError, found;
      }
      r := Settle(i, capacity);
    }

    /** `drive` ignores failures. */
    method Drive()
      requires Valid()
      modifies this
      ensures Valid() && submitted == old(submitted) && SameTraffic(old(View()), View())
      ensures clean ==> pending == [] && SendEntries(taken + sq) == submitted
      ensures clean && greedy && !sqpoll ==> sq == []
    {
      var ok := DriveAll();
      clean := clean && ok;
    }
  }

  // The two modes

  /** The sends among the entries as a caller sees them: which connection and which bytes. */
  function Payloads(q: seq<Sqe>): seq<(nat, seq<byte>)> {
    if q == [] then []
    else (if q[0].SendSqe? then [(q[0].idx, q[0].buf.bytes)] else []) + Payloads(q[1..])
  }

  /** The bytes for connection `i`, in order. */
  function StreamFor(payloads: seq<(nat, seq<byte>)>, i: nat): seq<byte> {
    if payloads == [] then []
    else (if payloads[0].0 == i then payloads[0].1 else []) + StreamFor(payloads[1..], i)
  }

  lemma {:induction false} PayloadsConcat(a: seq<Sqe>, b: seq<Sqe>)
    ensures Payloads(a + b) == Payloads(a) + Payloads(b)
    decreases |a|
  {
    if a == [] {
      assert a + b == b;
    } else {
      assert (a + b)[1..] == a[1..] + b && (a + b)[0] == a[0];
      PayloadsConcat(a[1..], b);
      Assoc(if a[0].SendSqe? then [(a[0].idx, a[0].buf.bytes)] else [], Payloads(a[1..]), Payloads(b));
    }
  }

  lemma {:induction false} StreamForConcat(a: seq<(nat, seq<byte>)>, b: seq<(nat, seq<byte>)>, i: nat)
    ensures StreamFor(a + b, i) == StreamFor(a, i) + StreamFor(b, i)
    decreases |a|
  {
    if a == [] {
      assert a + b == b;
    } else {
      assert (a + b)[1..] == a[1..] + b && (a + b)[0] == a[0];
      StreamForConcat(a[1..], b, i);
      Assoc(if a[0].0 == i then a[0].1 else [], StreamFor(a[1..], i), StreamFor(b, i));
    }
  }

  lemma {:induction false} PayloadsOfEntries(q: seq<Sqe>)
    ensures Payloads(SendEntries(q)) == Payloads(q)
    decreases |q|
  {
    if q != [] {
      PayloadsOfEntries(q[1..]);
      if q[0].SendSqe? {
        assert ([q[0]] + SendEntries(q[1..]))[1..] == SendEntries(q[1..]);
      } else {
        assert [] + SendEntries(q[1..]) == SendEntries(q[1..]);
      }
    }
  }

  lemma Accepted(u: IoUring)
    requires u.Valid() && u.clean
    ensures Payloads(u.submitted) == Payloads(u.taken + u.sq) + Payloads(u.pending)
  {
    PayloadsConcat(SendEntries(u.taken + u.sq), u.pending);
    PayloadsOfEntries(u.taken + u.sq);
  }

  /** Driven without errors by the same calls, the two modes put the same sends before the kernel, in the same
      order, wherever each stages its copies; so each connection is given the same bytes. */
  lemma {:induction false} ModesAgree(batch: IoUring, stream: IoUring, i: nat)
    requires batch.Valid() && stream.Valid() && batch.mode.BatchSyscall? && stream.mode.SqeStream?
    requires batch.clean && stream.clean && Payloads(batch.submitted) == Payloads(stream.submitted)
    ensures Payloads(batch.taken + batch.sq) + Payloads(batch.pending) == Payloads(stream.taken + stream.sq)
    ensures StreamFor(Payloads(batch.taken + batch.sq), i) + StreamFor(Payloads(batch.pending), i)
         == StreamFor(Payloads(stream.taken + stream.sq), i)
  {
    Accepted(batch);
    Accepted(stream);
    StreamForConcat(Payloads(batch.taken + batch.sq), Payloads(batch.pending), i);
  }
}
