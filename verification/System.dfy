/** All threads together: the workers of every provider, the bounded request
    channel and one-slot response channels of the reconnect thread
    (conn/reconnect.rs), the result rings and the result lane (result_lane.rs),
    interleaved in any order, with connections failing at any time. */
module System {
  import opened Bytes
  import opened Worker
  import opened Ledger
  import JsonRpc

  const REQUESTS: nat := 64

  type Codec = seq<byte> -> JsonRpc.OutcomeKind

  datatype Config = Config(kind: ConnKind, protocols: seq<Protocol>, codecs: seq<Codec>) {
    predicate Valid() { |protocols| == |codecs| }
    function N(): nat { |protocols| }
  }

  datatype ProviderOutcome = ProviderOutcome(
    job: JobId,
    provider: nat,
    kind: JsonRpc.OutcomeKind,
    sentAt: nat,
    settledAt: nat)

  function ParseOne(resp: RawResp, codec: Codec): ProviderOutcome {
    ProviderOutcome(resp.job, resp.provider,
                    if resp.noResponse then JsonRpc.NoResponse else codec(resp.bytes),
                    resp.sentTsc, resp.settledTsc)
  }

  /** One provider: its worker, its response channel, its book, and what the sink has received from its ring. */
  datatype Prov = Prov(w: Par, slot: Option<ReconnectResp>, book: Book, received: seq<ProviderOutcome>)

  datatype Sys = Sys(cfg: Config, provs: seq<Prov>, reqs: seq<ReconnectReq>, serial: nat, sink: seq<ProviderOutcome>)

  datatype SysStep =
    | Worker(i: nat, act: Act)
    | Reconnect(built: bool)
    | Lane(i: nat)
    | Breaks(i: nat, tag: ConnTag)

  // Transitions

  function NewConn(p: Protocol, tag: ConnTag): ConnState {
    match p
    case HttpProtocol => Http(tag)
    case QuicProtocol => Quic(tag, None, None)
  }

  /** `try_send` on the bounded request channel. */
  function Requested(reqs: seq<ReconnectReq>, fx: seq<Effect>): (r: seq<ReconnectReq>)
    decreases |fx|
  {
    if fx == [] then reqs
    else if fx[0].Asked? && |reqs| < REQUESTS then Requested(reqs + [fx[0].req], fx[1..])
    else Requested(reqs, fx[1..])
  }

  predicate Enabled(s: Sys, e: SysStep) {
    match e
    case Worker(i, act) => i < |s.provs| && AnswersFit(s.provs[i], act)
    case Reconnect(_) => s.reqs != []
    case Lane(i) => i < |s.provs| && i < |s.cfg.codecs| && s.provs[i].book.ring != []
    case Breaks(i, _) => i < |s.provs|
  }

  /** The answers the environment may give: those of `Allowed`, except that deliveries come from the channel. */
  predicate AnswersFit(p: Prov, a: Act) {
    if a.DoDeliver? then a.resp == p.slot else Allowed(p.w, p.book, a)
  }

  /** A provider after an act of its worker. */
  function Moved(p: Prov, a: Act): Prov {
    p.(w := Step(p.w, a).0, book := After(p.w, p.book, a), slot := if a.DoDeliver? then None else p.slot)
  }

  function Next(s: Sys, e: SysStep): Sys
    requires Enabled(s, e)
  {
    match e
    case Worker(i, act) =>
      s.(provs := s.provs[i := Moved(s.provs[i], act)], reqs := Requested(s.reqs, Step(s.provs[i].w, act).1))
    case Reconnect(built) => Rebuild(s, built)
    case Lane(i) =>
      var p := s.provs[i];
      var o := ParseOne(p.book.ring[0], s.cfg.codecs[i]);
      s.(provs := s.provs[i := p.(book := p.book.(ring := p.book.ring[1..]), received := p.received + [o])],
         sink := s.sink + [o])
    case Breaks(i, tag) =>
      var p := s.provs[i];
      s.(provs := s.provs[i := p.(book := Note(p.book, Broke(tag)))])
  }

  /** One turn of `run_reconnect_loop` with a request at hand. */
  function Rebuild(s: Sys, built: bool): Sys
    requires s.reqs != []
  {
    var req, rest := s.reqs[0], s.(reqs := s.reqs[1..]);
    var i := req.providerIdx;
    if req.kind.LibTpa? || !built || i >= |s.provs| || i >= |s.cfg.protocols| then rest
    else
      var conn := NewConn(s.cfg.protocols[i], ConnTag(i, s.serial));
      var p := s.provs[i];
      var p' := if p.slot.None? then p.(slot := Some(ReconnectResp(i, conn))) else p;
      rest.(serial := s.serial + 1, provs := s.provs[i := p'])
  }

  function NewBook(p: Protocol, active: ConnTag): Book {
    Book(p, {}, map[], map[], 0, [], None, map[], [], [], [], 0, 0, {active}, {})
  }

  /** The state `build` leaves: two connections per provider, every channel empty. */
  function Init(cfg: Config): Sys
    requires cfg.Valid()
  {
    Sys(cfg, seq(cfg.N(), i requires 0 <= i < cfg.N() => InitProv(cfg, i)), [], 2 * cfg.N(), [])
  }

  function InitProv(cfg: Config, i: nat): Prov
    requires i < cfg.N()
  {
    var p, a, b := cfg.protocols[i], ConnTag(i, 2 * i), ConnTag(i, 2 * i + 1);
    Prov(Par(i, cfg.kind, DualConn(ConnSlot(NewConn(p, a), true), ConnSlot(NewConn(p, b), true)), None, 0, 0),
         None, NewBook(p, a), [])
  }

  ghost predicate Run(s: Sys, steps: seq<SysStep>)
    decreases |steps|
  {
    steps == [] || (Enabled(s, steps[0]) && Run(Next(s, steps[0]), steps[1..]))
  }

  function Final(s: Sys, steps: seq<SysStep>): Sys
    requires Run(s, steps)
    decreases |steps|
  {
    if steps == [] then s else Final(Next(s, steps[0]), steps[1..])
  }

  /** A step that is not a move of provider `i`'s worker leaves the worker and the history of its sends and answers. */
  lemma OthersMove(s: Sys, e: SysStep, i: nat)
    requires Enabled(s, e) && i < |s.provs| && !(e.Worker? && e.i == i)
    ensures |Next(s, e).provs| == |s.provs|
    ensures var p, p' := s.provs[i], Next(s, e).provs[i];
            && p'.w == p.w && p.book.failed <= p'.book.failed
            && p'.book.protocol == p.book.protocol && p'.book.open == p.book.open && p'.book.answers == p.book.answers
            && p'.book.sends == p.book.sends && p'.book.cur == p.book.cur && p'.book.pushes == p.book.pushes
            && p'.book.pops == p.book.pops
  {
  }

  // The invariant

  /** The ring holds what the book kept and the sink has not received, and the sink got the rest through the codec. */
  ghost predicate RingOk(p: Prov, codec: Codec) {
    var d := |p.received|;
    && d + |p.book.ring| == |p.book.kept|
    && (forall k :: 0 <= k < d ==> p.received[k] == ParseOne(p.book.kept[k].resp, codec))
    && (forall k :: 0 <= k < |p.book.ring| ==> p.book.ring[k] == p.book.kept[d + k].resp)
  }

  /** The connections at hand were built for this provider, are all different, and a delivered one is unused. */
  ghost predicate ConnsOk(p: Prov, i: nat, cfg: Config, serial: nat)
    requires i < cfg.N()
  {
    && p.w.providerIdx == i && p.w.kind == cfg.kind && p.book.protocol == cfg.protocols[i]
    && p.w.Active().tag.builtFor == i && p.w.Standby().tag.builtFor == i
    && p.w.Standby().tag.serial < serial
    && (forall t :: t in p.book.used ==> t.serial < serial)
    && (p.slot.Some? ==>
          var r := p.slot.value;
          && r.providerIdx == i && r.conn.tag.builtFor == i && r.conn.tag.serial < serial
          && r.conn == NewConn(cfg.protocols[i], r.conn.tag)
          && r.conn.tag !in p.book.used && r.conn.tag != p.w.Standby().tag)
    && (cfg.kind.LibTpa? ==>
          && p.slot.None?
          && {p.w.Active().tag, p.w.Standby().tag} == {ConnTag(i, 2 * i), ConnTag(i, 2 * i + 1)})
  }

  ghost predicate ProvOk(p: Prov, i: nat, cfg: Config, serial: nat)
    requires cfg.Valid() && i < cfg.N()
  {
    BookOk(p.w, p.book) && ConnsOk(p, i, cfg, serial) && RingOk(p, cfg.codecs[i])
  }

  ghost predicate SysOk(s: Sys) {
    && s.cfg.Valid() && |s.provs| == s.cfg.N()
    && (forall i :: 0 <= i < |s.provs| ==> ProvOk(s.provs[i], i, s.cfg, s.serial))
    && |s.reqs| <= REQUESTS
    && (forall r :: r in s.reqs ==> r.kind == s.cfg.kind && r.providerIdx < |s.provs|)
  }

  lemma InitOk(cfg: Config)
    requires cfg.Valid()
    ensures SysOk(Init(cfg))
  {
  }

  // Every step keeps the invariant

  lemma {:induction false} RequestsOk(reqs: seq<ReconnectReq>, fx: seq<Effect>, kind: ConnKind, n: nat)
    requires |reqs| <= REQUESTS
    requires forall r :: r in reqs ==> r.kind == kind && r.providerIdx < n
    requires forall e :: e in fx && e.Asked? ==> e.req.kind == kind && e.req.providerIdx < n
    ensures var reqs' := Requested(reqs, fx);
            |reqs'| <= REQUESTS && forall r :: r in reqs' ==> r.kind == kind && r.providerIdx < n
    decreases |fx|
  {
    if fx != [] {
      assert fx[0] in fx;
      RequestsOk(if fx[0].Asked? && |reqs| < REQUESTS then reqs + [fx[0].req] else reqs, fx[1..], kind, n);
    }
  }

  lemma AsksForItself(w: Par, a: Act)
    ensures forall e :: e in Step(w, a).1 && e.Asked? ==> e.req == ReconnectReq(w.providerIdx, w.kind)
  {
  }

  /** Only failover and delivery change the pair: the first swaps it, the second leaves the active connection. */
  lemma PairChanges(w: Par, a: Act)
    ensures Step(w, a).0.providerIdx == w.providerIdx && Step(w, a).0.kind == w.kind
    ensures a.DoDeliver? ==> Step(w, a).0.Active() == w.Active()
    ensures !a.DoDeliver? ==>
              var w' := Step(w, a).0;
              || (w'.Active().tag == w.Active().tag && w'.Standby().tag == w.Standby().tag)
              || (w'.Active().tag == w.Standby().tag && w'.Standby().tag == w.Active().tag)
    ensures forall e :: e in Step(w, a).1 && e.FailedOver? ==> e.to == w.Standby().tag
  {
  }

  lemma {:induction false} NotesUsed(b: Book, fx: seq<Effect>, t: ConnTag)
    requires forall e :: e in fx && e.FailedOver? ==> e.to == t
    ensures NoteAll(b, fx).protocol == b.protocol
    ensures NoteAll(b, fx).used <= b.used + {t}
    decreases |fx|
  {
    if fx != [] {
      assert fx[0] in fx;
      NotesUsed(Note(b, fx[0]), fx[1..], t);
    }
  }

  /** Ring and record of kept responses move together. */
  ghost predicate RingRecorded(b: Book, d: nat) {
    && d + |b.ring| == |b.kept|
    && forall k :: 0 <= k < |b.ring| ==> b.ring[k] == b.kept[d + k].resp
  }

  lemma NoteRing(b: Book, e: Effect, d: nat)
    requires RingRecorded(b, d)
    ensures RingRecorded(Note(b, e), d) && b.kept <= Note(b, e).kept
  {
  }

  lemma {:induction false} NotesRing(b: Book, fx: seq<Effect>, d: nat)
    requires RingRecorded(b, d)
    ensures RingRecorded(NoteAll(b, fx), d) && b.kept <= NoteAll(b, fx).kept
    decreases |fx|
  {
    if fx != [] {
      NoteRing(b, fx[0], d);
      NotesRing(Note(b, fx[0]), fx[1..], d);
    }
  }

  /** A connection from the channel is one the worker may take as its standby. */
  lemma DeliveryAllowed(p: Prov, i: nat, cfg: Config, serial: nat)
    requires cfg.Valid() && i < cfg.N() && ProvOk(p, i, cfg, serial)
    ensures Allowed(p.w, p.book, DoDeliver(p.slot))
  {
  }

  lemma ConnsKept(p: Prov, i: nat, cfg: Config, serial: nat, a: Act)
    requires i < cfg.N() && ConnsOk(p, i, cfg, serial) && p.w.Active().tag in p.book.used && AnswersFit(p, a)
    ensures ConnsOk(Moved(p, a), i, cfg, serial)
  {
    PairChanges(p.w, a);
    NotesUsed(if a.DoSend? then p.book.(pops := p.book.pops + 1) else p.book, Step(p.w, a).1, p.w.Standby().tag);
  }

  lemma WorkerKeepsProv(p: Prov, i: nat, cfg: Config, serial: nat, a: Act)
    requires cfg.Valid() && i < cfg.N() && ProvOk(p, i, cfg, serial) && AnswersFit(p, a)
    ensures ProvOk(Moved(p, a), i, cfg, serial)
  {
    if a.DoDeliver? { DeliveryAllowed(p, i, cfg, serial); }
    ActsKeepBook(p.w, p.book, a);
    ConnsKept(p, i, cfg, serial, a);
    RingKept(p, cfg.codecs[i], a);
  }

  lemma RingKept(p: Prov, codec: Codec, a: Act)
    requires RingOk(p, codec)
    ensures RingOk(Moved(p, a), codec)
  {
    var b := if a.DoSend? then p.book.(pops := p.book.pops + 1) else p.book;
    assert RingRecorded(b, |p.received|);
    NotesRing(b, Step(p.w, a).1, |p.received|);
  }

  lemma WorkerKeeps(s: Sys, i: nat, a: Act)
    requires SysOk(s) && Enabled(s, Worker(i, a))
    ensures SysOk(Next(s, Worker(i, a)))
  {
    WorkerKeepsProv(s.provs[i], i, s.cfg, s.serial, a);
    AsksForItself(s.provs[i].w, a);
    RequestsOk(s.reqs, Step(s.provs[i].w, a).1, s.cfg.kind, |s.provs|);
  }

  lemma SerialGrows(p: Prov, i: nat, cfg: Config, serial: nat)
    requires cfg.Valid() && i < cfg.N() && ProvOk(p, i, cfg, serial)
    ensures ProvOk(p, i, cfg, serial + 1)
  {
  }

  lemma SlotFilled(p: Prov, i: nat, cfg: Config, serial: nat)
    requires cfg.Valid() && i < cfg.N() && ProvOk(p, i, cfg, serial) && !cfg.kind.LibTpa?
    ensures var conn := NewConn(cfg.protocols[i], ConnTag(i, serial));
            ProvOk(p.(slot := Some(ReconnectResp(i, conn))), i, cfg, serial + 1)
  {
    var c := NewConn(cfg.protocols[i], ConnTag(i, serial));
    assert c == NewConn(cfg.protocols[i], c.tag);
  }

  lemma ReconnectKeeps(s: Sys, built: bool)
    requires SysOk(s) && Enabled(s, Reconnect(built))
    ensures SysOk(Next(s, Reconnect(built)))
  {
    var s' := Rebuild(s, built);
    var i := s.reqs[0].providerIdx;
    assert s.reqs[0] in s.reqs;
    assert forall r :: r in s.reqs[1..] ==> r in s.reqs;
    if s'.serial > s.serial {
      forall j | 0 <= j < |s.provs| ensures ProvOk(s'.provs[j], j, s.cfg, s'.serial) {
        if j == i && s.provs[i].slot.None? {
          SlotFilled(s.provs[i], i, s.cfg, s.serial);
        } else {
          SerialGrows(s.provs[j], j, s.cfg, s.serial);
        }
      }
    }
  }

  lemma LaneKeeps(s: Sys, i: nat)
    requires SysOk(s) && Enabled(s, Lane(i))
    ensures SysOk(Next(s, Lane(i)))
  {
    var p := s.provs[i];
    KeepsRingPop(p.w, p.book);
    LaneKeepsRing(p, s.cfg.codecs[i]);
  }

  lemma LaneKeepsRing(p: Prov, codec: Codec)
    requires RingOk(p, codec) && p.book.ring != []
    ensures RingOk(p.(book := p.book.(ring := p.book.ring[1..]),
                      received := p.received + [ParseOne(p.book.ring[0], codec)]), codec)
  {
    var d := |p.received|;
    forall k | 0 <= k < |p.book.ring| - 1 ensures p.book.ring[1..][k] == p.book.kept[d + 1 + k].resp {
      assert p.book.ring[k + 1] == p.book.kept[d + (k + 1)].resp;
    }
    assert p.book.ring[0] == p.book.kept[d + 0].resp;
  }

  lemma BreaksKeeps(s: Sys, i: nat, tag: ConnTag)
    requires SysOk(s) && Enabled(s, Breaks(i, tag))
    ensures SysOk(Next(s, Breaks(i, tag)))
  {
    BreaksKeepsProv(s.provs[i], i, s.cfg, s.serial, tag);
  }

  lemma BreaksKeepsProv(p: Prov, i: nat, cfg: Config, serial: nat, tag: ConnTag)
    requires cfg.Valid() && i < cfg.N() && ProvOk(p, i, cfg, serial)
    ensures ProvOk(p.(book := Note(p.book, Broke(tag))), i, cfg, serial)
  {
    KeepsBroke(p.w, p.book, tag);
  }

  lemma StepKeeps(s: Sys, e: SysStep)
    requires SysOk(s) && Enabled(s, e)
    ensures SysOk(Next(s, e)) && Next(s, e).cfg == s.cfg
  {
    match e
    case Worker(i, act) => WorkerKeeps(s, i, act);
    case Reconnect(built) => ReconnectKeeps(s, built);
    case Lane(i) => LaneKeeps(s, i);
    case Breaks(i, tag) => BreaksKeeps(s, i, tag);
  }

  lemma {:induction false} RunKeeps(s: Sys, steps: seq<SysStep>)
    requires SysOk(s) && Run(s, steps)
    ensures SysOk(Final(s, steps)) && Final(s, steps).cfg == s.cfg
    decreases |steps|
  {
    if steps != [] {
      StepKeeps(s, steps[0]);
      RunKeeps(Next(s, steps[0]), steps[1..]);
    }
  }
}
