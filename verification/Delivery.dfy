/** From the worker to the sink: which responses the result ring takes, and that
    none is missing while it has room. */
module Delivery {
  import opened Bytes
  import opened Worker
  import opened Moves
  import opened Ledger
  import opened System
  import Guarantees

  /** What one step may do to the ring: take the one response it built if fewer than 256 wait, and nothing else. */
  predicate RingStep(b: Book, b': Book) {
    if b'.pushes == b.pushes then b'.ring == b.ring && b'.kept == b.kept
    else
      && |b'.pushes| == |b.pushes| + 1 && b.pushes <= b'.pushes
      && var rec := b'.pushes[|b.pushes|];
         if |b.ring| < 256 then b'.ring == b.ring + [rec.resp] && b'.kept == b.kept + [rec]
         else b'.ring == b.ring && b'.kept == b.kept
  }

  lemma NoteRing(b: Book, e: Effect)
    ensures RingStep(b, Note(b, e))
    ensures !e.Pushed? ==> Note(b, e).pushes == b.pushes
  {
  }

  lemma {:induction false} NoPushes(b: Book, fx: seq<Effect>)
    requires Reports(fx) == []
    ensures var b' := NoteAll(b, fx); b'.pushes == b.pushes && b'.ring == b.ring && b'.kept == b.kept
    decreases |fx|
  {
    if fx != [] {
      NoteRing(b, fx[0]);
      NoPushes(Note(b, fx[0]), fx[1..]);
    }
  }

  lemma {:induction false} NotesRing(b: Book, fx: seq<Effect>)
    requires |Reports(fx)| <= 1
    ensures RingStep(b, NoteAll(b, fx))
    decreases |fx|
  {
    if fx != [] {
      NoteRing(b, fx[0]);
      if fx[0].Pushed? {
        NoPushes(Note(b, fx[0]), fx[1..]);
      } else {
        NotesRing(Note(b, fx[0]), fx[1..]);
      }
    }
  }

  lemma ReportsOne(w: Par, a: Act)
    ensures |Reports(Step(w, a).1)| <= 1
  {
    ReportsExactly(w, a);
  }

  lemma ActRing(w: Par, b: Book, a: Act)
    ensures RingStep(b, After(w, b, a))
  {
    ReportsOne(w, a);
    NotesRing(if a.DoSend? then b.(pops := b.pops + 1) else b, Step(w, a).1);
  }

  /** Every step of every thread: the lane takes the oldest response through the provider's codec, a worker adds the
      one it built exactly when fewer than 256 wait, and nothing else touches the ring or what was received. */
  lemma RingTakesExactly(s: Sys, e: SysStep, i: nat)
    requires Enabled(s, e) && i < |s.provs|
    ensures |Next(s, e).provs| == |s.provs|
    ensures var p, p' := s.provs[i], Next(s, e).provs[i];
            if e == Lane(i) then
              && p'.book == p.book.(ring := p.book.ring[1..])
              && p'.received == p.received + [ParseOne(p.book.ring[0], s.cfg.codecs[i])]
            else
              p'.received == p.received && RingStep(p.book, p'.book)
  {
    if e.Worker? && e.i == i {
      ActRing(s.provs[i].w, s.provs[i].book, e.act);
    }
  }

  /** Before every move of provider `i`'s worker its ring has room. */
  ghost predicate Roomy(s: Sys, steps: seq<SysStep>, i: nat)
    requires Run(s, steps)
    decreases |steps|
  {
    steps == [] || (
      && (steps[0].Worker? && steps[0].i == i ==> |s.provs[i].book.ring| < 256)
      && Roomy(Next(s, steps[0]), steps[1..], i))
  }

  lemma {:induction false} RoomKeepsAll(s: Sys, steps: seq<SysStep>, i: nat)
    requires Run(s, steps) && i < |s.provs| && Roomy(s, steps, i) && s.provs[i].book.kept == s.provs[i].book.pushes
    ensures |Final(s, steps).provs| == |s.provs|
    ensures Final(s, steps).provs[i].book.kept == Final(s, steps).provs[i].book.pushes
    decreases |steps|
  {
    if steps != [] {
      var e := steps[0];
      RingTakesExactly(s, e, i);
      if !(e.Worker? && e.i == i) { OthersMove(s, e, i); }
      RoomKeepsAll(Next(s, e), steps[1..], i);
    }
  }

  /**
    Over every run in which the ring of provider i has room whenever its worker
    moves: every response built is received through the provider's codec, or is
    still in the ring, each once and in the order built.
   */
  lemma {:induction false} NothingIsDropped(cfg: Config, steps: seq<SysStep>, s: Sys, i: nat)
    requires Guarantees.Reached(cfg, steps, s) && i < cfg.N() && Roomy(Init(cfg), steps, i)
    ensures i < |s.provs|
    ensures var p := s.provs[i];
            && |p.received| + |p.book.ring| == |p.book.pushes|
            && (forall k :: 0 <= k < |p.received| ==> p.received[k] == ParseOne(p.book.pushes[k].resp, cfg.codecs[i]))
            && (forall k :: 0 <= k < |p.book.ring| ==> p.book.ring[k] == p.book.pushes[|p.received| + k].resp)
  {
    Guarantees.ReachedOk(cfg, steps, s);
    assert ProvOk(s.provs[i], i, s.cfg, s.serial);
    RoomKeepsAll(Init(cfg), steps, i);
  }
}
