/** The two service threads as objects: the result lane (result_lane.rs) and
    the reconnect thread (conn/reconnect.rs). Each is proved to make exactly
    the moves that the state machine of module System allows it. */
module Threads {
  import opened Bytes
  import opened Worker
  import opened System

  // The lane

  /** What the responses of one ring become. */
  function Parsed(ring: seq<RawResp>, codec: Codec): seq<ProviderOutcome> {
    if ring == [] then [] else [ParseOne(ring[0], codec)] + Parsed(ring[1..], codec)
  }

  lemma {:induction false} ParsedNext(sink: seq<ProviderOutcome>, ring: seq<RawResp>, codec: Codec)
    requires ring != []
    ensures sink + Parsed(ring, codec) == sink + [ParseOne(ring[0], codec)] + Parsed(ring[1..], codec)
  {
  }

  /** What one pass over the first `n` rings hands to the sink: ring by ring, each in order. */
  function Drained(rings: seq<seq<RawResp>>, codecs: seq<Codec>, n: nat): seq<ProviderOutcome>
    requires n <= |rings| && n <= |codecs|
  {
    if n == 0 then [] else Drained(rings, codecs, n - 1) + Parsed(rings[n - 1], codecs[n - 1])
  }

  lemma {:induction false} DrainedNext(sink: seq<ProviderOutcome>, rings: seq<seq<RawResp>>, codecs: seq<Codec>,
                                       m: nat, n: nat)
    requires n == m + 1 && n <= |rings| && n <= |codecs|
    ensures sink + Drained(rings, codecs, n) == sink + Drained(rings, codecs, m) + Parsed(rings[m], codecs[m])
  {
    Assoc(sink, Drained(rings, codecs, m), Parsed(rings[m], codecs[m]));
  }

  /** Some of the first `n` rings holds a response. */
  predicate AnyIn(rings: seq<seq<RawResp>>, n: nat)
    requires n <= |rings|
  {
    exists i :: 0 <= i < n && rings[i] != []
  }

  class ResultLane {
    const codecs: seq<Codec>
    var rings: seq<seq<RawResp>>
    var sink: seq<ProviderOutcome>

    /** The object and the state machine hold the same rings, codecs and deliveries. */
    ghost predicate Agrees(s: Sys)
      reads this
    {
      s.cfg.codecs == codecs && rings == Rings(s) && |rings| == |codecs| && sink == s.sink
    }

    constructor (codecs: seq<Codec>)
      ensures this.codecs == codecs && sink == [] && rings == seq(|codecs|, _ => [])
    {
      this.codecs := codecs;
      rings, sink := seq(|codecs|, _ => []), [];
    }

    /** The inner loop on ring `i`. */
    method EmptyRing(i: nat) returns (got: bool)
      requires i < |rings| == |codecs|
      modifies this
      ensures rings == old(rings)[i := []]
      ensures sink == old(sink) + Parsed(old(rings)[i], codecs[i])
      ensures got <==> old(rings)[i] != []
    {
      got := false;
      while rings[i] != []
        invariant |rings| == |old(rings)| && rings == old(rings)[i := rings[i]]
        invariant sink + Parsed(rings[i], codecs[i]) == old(sink) + Parsed(old(rings)[i], codecs[i])
        invariant got || rings[i] == old(rings)[i]
        invariant got ==> old(rings)[i] != []
        decreases |rings[i]|
      {
        ParsedNext(sink, rings[i], codecs[i]);
        var resp := rings[i][0];
        rings := rings[i := rings[i][1..]];
        got := true;
        sink := sink + [ParseOne(resp, codecs[i])];
      }
    }

    /** The loop over all rings. */
    method EmptyAll() returns (got: bool)
      requires |rings| == |codecs|
      modifies this
      ensures |rings| == |codecs| && forall i :: 0 <= i < |rings| ==> rings[i] == []
      ensures sink == old(sink) + Drained(old(rings), codecs, |codecs|)
      ensures got <==> AnyIn(old(rings), |codecs|)
    {
      got := false;
      var n := |codecs|;
      for i := 0 to n
        invariant |rings| == n == |old(rings)|
        invariant forall j :: 0 <= j < n ==> rings[j] == if j < i then [] else old(rings)[j]
        invariant got == AnyIn(old(rings), i)
        invariant sink == old(sink) + Drained(old(rings), codecs, i)
      {
        var some := EmptyRing(i);
        got := got || some;
        Assoc(old(sink), Drained(old(rings), codecs, i), Parsed(old(rings)[i], codecs[i]));
      }
    }

    /** One pass of `run` over all rings is a sequence of the state machine's lane moves. */
    method Pass(ghost s: Sys) returns (got: bool, ghost t: Sys)
      requires Agrees(s)
      modifies this
      ensures LaneReaches(s, t) && Agrees(t)
      ensures |rings| == |codecs| && forall i :: 0 <= i < |rings| ==> rings[i] == []
      ensures sink == old(sink) + Drained(old(rings), codecs, |codecs|)
      ensures got <==> AnyIn(old(rings), |codecs|)
    {
      got := EmptyAll();
      t := RingsDrain(s, |codecs|);
    }
  }

  // The lane's moves in the state machine

  ghost function Rings(s: Sys): (r: seq<seq<RawResp>>)
    ensures |r| == |s.provs|
  {
    seq(|s.provs|, i requires 0 <= i < |s.provs| => s.provs[i].book.ring)
  }

  /** `t` is reached from `s` by moves of the lane alone. */
  ghost predicate LaneReaches(s: Sys, t: Sys) {
    exists steps: seq<SysStep> :: LaneRun(s, steps, t)
  }

  ghost predicate LaneRun(s: Sys, steps: seq<SysStep>, t: Sys) {
    Run(s, steps) && Final(s, steps) == t && forall e :: e in steps ==> e.Lane?
  }

  lemma LaneReachesSelf(s: Sys)
    ensures LaneReaches(s, s)
  {
    assert LaneRun(s, [], s);
  }

  lemma LaneReachesFirst(s: Sys, i: nat, t: Sys)
    requires Enabled(s, Lane(i)) && LaneReaches(Next(s, Lane(i)), t)
    ensures LaneReaches(s, t)
  {
    var steps :| LaneRun(Next(s, Lane(i)), steps, t);
    assert ([Lane(i)] + steps)[1..] == steps;
    assert LaneRun(s, [Lane(i)] + steps, t);
  }

  lemma {:induction false} LaneRunThen(s: Sys, steps: seq<SysStep>, t: Sys, u: Sys)
    requires LaneRun(s, steps, t) && LaneReaches(t, u)
    ensures LaneReaches(s, u)
    decreases |steps|
  {
    if steps != [] {
      var e := steps[0];
      assert e in steps;
      assert LaneRun(Next(s, e), steps[1..], t);
      LaneRunThen(Next(s, e), steps[1..], t, u);
      LaneReachesFirst(s, e.i, u);
    }
  }

  lemma LaneReachesThen(s: Sys, t: Sys, u: Sys)
    requires LaneReaches(s, t) && LaneReaches(t, u)
    ensures LaneReaches(s, u)
  {
    var steps :| LaneRun(s, steps, t);
    LaneRunThen(s, steps, t, u);
  }

  lemma {:induction false} RingDrains(s: Sys, i: nat) returns (t: Sys)
    requires i < |s.provs| == |s.cfg.codecs|
    ensures LaneReaches(s, t) && t.cfg == s.cfg && Rings(t) == Rings(s)[i := []]
    ensures t.sink == s.sink + Parsed(Rings(s)[i], s.cfg.codecs[i])
    decreases |Rings(s)[i]|
  {
    if Rings(s)[i] == [] {
      t := s;
      LaneReachesSelf(s);
    } else {
      var s1 := Next(s, Lane(i));
      assert Rings(s1) == Rings(s)[i := Rings(s)[i][1..]];
      ParsedNext(s.sink, Rings(s)[i], s.cfg.codecs[i]);
      t := RingDrains(s1, i);
      LaneReachesFirst(s, i, t);
    }
  }

  lemma {:induction false} RingsDrain(s: Sys, n: nat) returns (t: Sys)
    requires n <= |s.provs| == |s.cfg.codecs|
    ensures LaneReaches(s, t) && t.cfg == s.cfg && |t.provs| == |s.provs|
    ensures forall i :: 0 <= i < |s.provs| ==> Rings(t)[i] == if i < n then [] else Rings(s)[i]
    ensures t.sink == s.sink + Drained(Rings(s), s.cfg.codecs, n)
    decreases n
  {
    if n == 0 {
      t := s;
      LaneReachesSelf(s);
    } else {
      var m := n - 1;
      var t1 := RingsDrain(s, m);
      t := RingDrains(t1, m);
      LaneReachesThen(s, t1, t);
      DrainedNext(s.sink, Rings(s), s.cfg.codecs, m, n);
    }
  }

  // The reconnect thread

  class ReconnectThread {
    const cfg: Config
    var reqs: seq<ReconnectReq>
    var slots: seq<Option<ReconnectResp>>
    var serial: nat

    ghost predicate Agrees(s: Sys)
      reads this
    {
      && s.cfg == cfg && cfg.Valid() && |slots| == |s.provs| == cfg.N() && reqs == s.reqs && serial == s.serial
      && forall i :: 0 <= i < |slots| ==> slots[i] == s.provs[i].slot
    }

    constructor (cfg: Config)
      requires cfg.Valid()
      ensures this.cfg == cfg && Agrees(Init(cfg))
    {
      this.cfg := cfg;
      reqs, slots, serial := [], seq(cfg.N(), _ => None), 2 * cfg.N();
    }

    /** The worker side: `try_send` on the bounded request channel. */
    method Request(req: ReconnectReq) returns (ok: bool)
      modifies `reqs
      ensures ok <==> old(|reqs|) < REQUESTS
      ensures reqs == if ok then old(reqs) + [req] else old(reqs)
    {
      ok := |reqs| < REQUESTS;
      if ok { reqs := reqs + [req]; }
    }

    /** One turn of the loop with a request at hand; `built` says whether the builder succeeds. */
    method Turn(built: bool, ghost s: Sys)
      requires Agrees(s) && reqs != []
      modifies this
      ensures Enabled(s, Reconnect(built)) && Agrees(Next(s, Reconnect(built)))
      ensures |slots| == old(|slots|) && reqs == old(reqs)[1..]
      ensures forall i :: 0 <= i < |slots| ==>
                slots[i] == if old(slots[i]).None? && built
                               && i == old(reqs[0].providerIdx) && !old(reqs[0].kind).LibTpa?
                            then Some(ReconnectResp(i, NewConn(cfg.protocols[i], ConnTag(i, old(serial)))))
                            else old(slots[i])
    {
      var req := reqs[0];
      reqs := reqs[1..];
      if req.kind == LibTpa { return; }
      var i := req.providerIdx;
      if built && i < cfg.N() {
        var conn := NewConn(cfg.protocols[i], ConnTag(i, serial));
        serial := serial + 1;
        if slots[i].None? {
          slots := slots[i := Some(ReconnectResp(i, conn))];
        }
      }
    }
  }
}
