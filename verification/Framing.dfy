/** The response framer of engine.rs: `body_if_complete`, the plaintext
    accumulation of `ingest`, and what both make of a stream cut into chunks. */
module Framing {
  import opened Bytes
  import opened Decimal

  const MAX_RESPONSE: nat := 64 * 1024
  const PREFIX: seq<byte> := Ascii("content-length:")

  // Text helpers of the standard library, on the bytes of valid UTF-8

  function Lower(b: byte): byte { if 65 <= b < 91 then b + 32 else b }

  /** Length of the Unicode white-space character at the front, or 0. */
  function BlankFront(s: seq<byte>): (n: nat)
    ensures n <= |s|
  {
    if s == [] then 0
    else if 9 <= s[0] < 14 || s[0] == 32 then 1
    else if |s| >= 2 && s[0] == 0xC2 && (s[1] == 0x85 || s[1] == 0xA0) then 2
    else if |s| >= 3 && WideBlank(s[0], s[1], s[2]) then 3
    else 0
  }

  function BlankBack(s: seq<byte>): (n: nat)
    ensures n <= |s|
  {
    var k := |s|;
    if s == [] then 0
    else if 9 <= s[k - 1] < 14 || s[k - 1] == 32 then 1
    else if k >= 2 && s[k - 2] == 0xC2 && (s[k - 1] == 0x85 || s[k - 1] == 0xA0) then 2
    else if k >= 3 && WideBlank(s[k - 3], s[k - 2], s[k - 1]) then 3
    else 0
  }

  predicate WideBlank(x: byte, y: byte, z: byte) {
    || (x == 0xE1 && y == 0x9A && z == 0x80)
    || (x == 0xE2 && y == 0x80 && (0x80 <= z <= 0x8A || z == 0xA8 || z == 0xA9 || z == 0xAF))
    || (x == 0xE2 && y == 0x81 && z == 0x9F)
    || (x == 0xE3 && y == 0x80 && z == 0x80)
  }

  function TrimStart(s: seq<byte>): (r: seq<byte>)
    ensures |r| <= |s|
  {
    if BlankFront(s) == 0 then s else TrimStart(s[BlankFront(s)..])
  }

  function TrimEnd(s: seq<byte>): seq<byte> {
    if BlankBack(s) == 0 then s else TrimEnd(s[..|s| - BlankBack(s)])
  }

  function Trim(s: seq<byte>): seq<byte> { TrimEnd(TrimStart(s)) }

  /** The first item of `str::lines` and the text after its line end. */
  function NextLine(text: seq<byte>): (r: (seq<byte>, seq<byte>))
    requires text != []
    ensures |r.1| < |text|
  {
    match Find(text, [LF])
    case None => (text, [])
    case Some(i) =>
      (if i > 0 && text[i - 1] == CR then text[..i - 1] else text[..i], text[i + 1..])
  }

  // The framer

  predicate IsContentLength(line: seq<byte>) {
    |line| >= |PREFIX| && forall k :: 0 <= k < |PREFIX| ==> Lower(line[k]) == PREFIX[k]
  }

  /** The value of the first Content-Length line. */
  function FieldValue(text: seq<byte>): (r: Option<seq<byte>>)
    decreases |text|
  {
    if text == [] then None
    else
      var (line, rest) := NextLine(text);
      if IsContentLength(line) then Some(line[|PREFIX|..]) else FieldValue(rest)
  }

  function ContentLength(headers: seq<byte>): (r: Option<nat>)
  {
    if !Utf8(headers) then None
    else match FieldValue(headers)
         case None => None
         case Some(v) => ParseUsize(Trim(v))
  }

  function BodyIfComplete(acc: seq<byte>): (r: Option<seq<byte>>)
  {
    match Find(acc, BLANK_LINE)
    case None => None
    case Some(i) =>
      match ContentLength(acc[..i + 4])
      case None => None
      case Some(len) => if |acc| >= i + 4 + len then Some(acc[i + 4..i + 4 + len]) else None
  }

  /** One whole response and nothing after it. */
  predicate IsResponse(r: seq<byte>) {
    && Find(r, BLANK_LINE).Some?
    && ContentLength(r[..Find(r, BLANK_LINE).value + 4])
       == Some(|r| - (Find(r, BLANK_LINE).value + 4))
  }

  function BodyOf(r: seq<byte>): seq<byte>
    requires IsResponse(r)
  {
    r[Find(r, BLANK_LINE).value + 4..]
  }

  lemma ResponseIsComplete(r: seq<byte>)
    requires IsResponse(r)
    ensures BodyIfComplete(r) == Some(BodyOf(r))
  {
    var i := Find(r, BLANK_LINE).value + 4;
    assert r[i..|r|] == r[i..];
  }

  /** No proper prefix of a response is taken for a response. */
  lemma PrefixIsIncomplete(r: seq<byte>, n: nat)
    requires IsResponse(r) && n < |r|
    ensures BodyIfComplete(r[..n]) == None
  {
    var p := r[..n];
    if Find(p, BLANK_LINE).Some? {
      FindExtend(p, r[n..], BLANK_LINE);
      assert p + r[n..] == r;
      var i := Find(r, BLANK_LINE).value + 4;
      assert p[..i] == r[..i];
    }
  }

  // Accumulation

  datatype IngestError = TlsError | IoError | TooLarge

  /** What one call finds in the TLS layer: the plaintext reads, possibly cut short by an error. */
  datatype TlsInput =
    | CipherError
    | PacketError
    | Plain(parts: seq<seq<byte>>)
    | ReadError(parts: seq<seq<byte>>)

  type Outcome = Result<Option<seq<byte>>, IngestError>

  function Flat<T>(parts: seq<seq<T>>): seq<T> {
    if parts == [] then [] else parts[0] + Flat(parts[1..])
  }

  /** `ingest` on plaintext: the outcome and the bytes kept for the next call. */
  function Ingested(kept: seq<byte>, chunk: seq<byte>): (r: (Outcome, seq<byte>))
  {
    var acc := kept + chunk;
    match BodyIfComplete(acc)
    case Some(body) => (Ok(Some(body)), [])
    case None => (if |acc| > MAX_RESPONSE then Err(TooLarge) else Ok(None), acc)
  }

  class HttpEngine {
    var rxPlain: seq<byte>

    constructor ()
      ensures rxPlain == []
    {
      rxPlain := [];
    }

    method Ingest(input: TlsInput) returns (r: Outcome)
      modifies this
      ensures input.CipherError? ==> r == Err(IoError) && rxPlain == old(rxPlain)
      ensures input.PacketError? ==> r == Err(TlsError) && rxPlain == old(rxPlain)
      ensures input.ReadError? ==> r == Err(IoError) && rxPlain == old(rxPlain) + Flat(input.parts)
      ensures input.Plain? ==> (r, rxPlain) == Ingested(old(rxPlain), Flat(input.parts))
    {
      if input.CipherError? {
        return Err(IoError);
      }
      if input.PacketError? {
        return Err(TlsError);
      }
      var i := 0;
      assert input.parts[0..] == input.parts;
      while i < |input.parts|
        invariant 0 <= i <= |input.parts|
        invariant rxPlain + Flat(input.parts[i..]) == old(rxPlain) + Flat(input.parts)
      {
        rxPlain := rxPlain + input.parts[i];
        i := i + 1;
      }
      assert rxPlain == rxPlain + Flat(input.parts[i..]);
      if input.ReadError? {
        return Err(IoError);
      }
      var body := BodyIfComplete(rxPlain);
      if body.Some? {
        rxPlain := [];
        return Ok(body);
      }
      if |rxPlain| > MAX_RESPONSE {
        return Err(TooLarge);
      }
      return Ok(None);
    }
  }

  /** The outcomes of feeding chunks one by one, and the bytes kept at the end. */
  function Feed(kept: seq<byte>, chunks: seq<seq<byte>>): (r: (seq<Outcome>, seq<byte>))
    ensures |r.0| == |chunks|
    decreases |chunks|
  {
    if chunks == [] then ([], kept)
    else
      var (o, k) := Ingested(kept, chunks[0]);
      var (os, k') := Feed(k, chunks[1..]);
      ([o] + os, k')
  }

  /** What the framer keeps between calls. */
  predicate Kept(acc: seq<byte>) {
    BodyIfComplete(acc).None? && |acc| <= MAX_RESPONSE
  }

  /** Until the first error the kept bytes never hold a whole response and never exceed the limit. */
  lemma {:induction false} KeptStaysShort(kept: seq<byte>, chunks: seq<seq<byte>>)
    requires Kept(kept)
    requires forall i :: 0 <= i < |chunks| ==> Feed(kept, chunks).0[i].Ok?
    ensures Kept(Feed(kept, chunks).1)
    decreases |chunks|
  {
    if chunks != [] {
      var (o, k) := Ingested(kept, chunks[0]);
      var outs := Feed(kept, chunks).0;
      assert outs[0] == o;
      assert Find([], BLANK_LINE).None?;
      forall i | 0 <= i < |chunks| - 1 ensures Feed(k, chunks[1..]).0[i].Ok? {
        assert outs[i + 1] == Feed(k, chunks[1..]).0[i];
      }
      KeptStaysShort(k, chunks[1..]);
    }
  }

  /** The chunks of one response: they spell it out, and the last one is not empty. */
  predicate ChunksOf(chunks: seq<seq<byte>>, r: seq<byte>) {
    chunks != [] && chunks[|chunks| - 1] != [] && Flat(chunks) == r
  }

  /** Nothing for every chunk but the last, the body for that one. */
  function OnlyAtEnd(n: nat, body: seq<byte>): (r: seq<Outcome>)
    requires n > 0
    ensures |r| == n
  {
    if n == 1 then [Ok(Some(body))] else [Ok(None)] + OnlyAtEnd(n - 1, body)
  }

  lemma {:induction false} FlatTail(chunks: seq<seq<byte>>)
    requires chunks != [] && chunks[|chunks| - 1] != []
    ensures Flat(chunks) != []
  {
    if |chunks| > 1 {
      FlatTail(chunks[1..]);
    }
  }

  lemma IngestsPart(kept: seq<byte>, chunk: seq<byte>, r: seq<byte>)
    requires IsResponse(r) && |r| <= MAX_RESPONSE
    requires kept + chunk < r
    ensures Ingested(kept, chunk) == (Ok(None), kept + chunk)
  {
    PrefixIsIncomplete(r, |kept + chunk|);
    assert r[..|kept + chunk|] == kept + chunk;
  }

  lemma IngestsWhole(kept: seq<byte>, chunk: seq<byte>, r: seq<byte>)
    requires IsResponse(r) && kept + chunk == r
    ensures Ingested(kept, chunk) == (Ok(Some(BodyOf(r))), [])
  {
    ResponseIsComplete(r);
  }

  lemma {:induction false} FeedFirst(kept: seq<byte>, chunks: seq<seq<byte>>, o: Outcome, k: seq<byte>)
    requires chunks != [] && Ingested(kept, chunks[0]) == (o, k)
    ensures Feed(kept, chunks).0 == [o] + Feed(k, chunks[1..]).0
    ensures Feed(kept, chunks).1 == Feed(k, chunks[1..]).1
  {
  }

  lemma {:induction false} FeedResponse(kept: seq<byte>, chunks: seq<seq<byte>>, r: seq<byte>)
    requires IsResponse(r) && |r| <= MAX_RESPONSE
    requires chunks != [] && chunks[|chunks| - 1] != [] && kept + Flat(chunks) == r
    ensures Feed(kept, chunks).0 == OnlyAtEnd(|chunks|, BodyOf(r))
    ensures Feed(kept, chunks).1 == []
    decreases |chunks|
  {
    var acc, rest := kept + chunks[0], chunks[1..];
    assert acc + Flat(rest) == r;
    if |chunks| == 1 {
      IngestsWhole(kept, chunks[0], r);
      FeedFirst(kept, chunks, Ok(Some(BodyOf(r))), []);
    } else {
      FlatTail(rest);
      IngestsPart(kept, chunks[0], r);
      FeedFirst(kept, chunks, Ok(None), acc);
      FeedResponse(acc, rest, r);
    }
  }

  lemma {:induction false} FeedConcat(kept: seq<byte>, xs: seq<seq<byte>>, ys: seq<seq<byte>>)
    ensures var (os, k) := Feed(kept, xs);
            var (os', k') := Feed(k, ys);
            Feed(kept, xs + ys) == (os + os', k')
    decreases |xs|
  {
    if xs == [] {
      assert xs + ys == ys;
      assert [] + Feed(kept, ys).0 == Feed(kept, ys).0;
    } else {
      assert (xs + ys)[1..] == xs[1..] + ys;
      var (o, k) := Ingested(kept, xs[0]);
      var (os, k') := Feed(k, xs[1..]);
      FeedConcat(k, xs[1..], ys);
      assert [o] + os + Feed(k', ys).0 == [o] + (os + Feed(k', ys).0);
    }
  }

  function Expected(groups: seq<seq<seq<byte>>>, responses: seq<seq<byte>>): seq<Outcome>
    requires |groups| == |responses|
    requires forall i :: 0 <= i < |groups| ==> IsResponse(responses[i]) && ChunksOf(groups[i], responses[i])
  {
    if groups == [] then []
    else
      assert ChunksOf(groups[0], responses[0]);
      OnlyAtEnd(|groups[0]|, BodyOf(responses[0])) + Expected(groups[1..], responses[1..])
  }

  /**
    However the responses are cut into chunks, so long as no chunk crosses a
    response end, the framer yields exactly their bodies, in order, each at the
    chunk that completes it, and is left with nothing.
   */
  lemma {:induction false} ChunkingIndependence(groups: seq<seq<seq<byte>>>, responses: seq<seq<byte>>)
    requires |groups| == |responses|
    requires forall i :: 0 <= i < |groups| ==>
               IsResponse(responses[i]) && |responses[i]| <= MAX_RESPONSE && ChunksOf(groups[i], responses[i])
    ensures Feed([], Flat(groups)) == (Expected(groups, responses), [])
    decreases |groups|
  {
    if groups != [] {
      var g, rest := groups[0], Flat(groups[1..]);
      assert [] + Flat(g) == responses[0];
      FeedResponse([], g, responses[0]);
      FeedConcat([], g, rest);
      ChunkingIndependence(groups[1..], responses[1..]);
    }
  }
}
