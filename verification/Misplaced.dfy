/** A builder envelope.rs compiles and then patches in the wrong place: the body
    sentinel stands in the request path, ahead of the Content-Length field. */
module Misplaced {
  import opened Bytes
  import opened Envelope
  import opened Rendering
  import Base64

  predicate Clear(s: seq<byte>) { forall i :: 0 <= i < |s| ==> s[i] != 60 }

  /** The sentinels are the only text with a `<`. */
  function Around(pre: seq<byte>, mid: seq<byte>, post: seq<byte>): seq<byte> {
    pre + BODY_SENTINEL + mid + CL_SENTINEL + post
  }

  lemma AroundAt(pre: seq<byte>, mid: seq<byte>, post: seq<byte>, j: nat)
    requires Clear(pre) && Clear(mid) && Clear(post) && j + 2 < |Around(pre, mid, post)|
    ensures var w, b, c := Around(pre, mid, post), |pre|, |pre| + 8 + |mid|;
            w[j] == w[j + 1] == 60 ==> (j == b && w[j + 2] == 66) || (j == c && w[j + 2] == 67)
  {
    var w, b, c := Around(pre, mid, post), |pre|, |pre| + 8 + |mid|;
    if b <= j < b + 8 {
      assert w[j] == BODY_SENTINEL[j - b];
    } else if c <= j < c + 12 {
      assert w[j] == CL_SENTINEL[j - c];
    }
  }

  lemma AroundHas(pre: seq<byte>, mid: seq<byte>, post: seq<byte>)
    ensures OccursAt(Around(pre, mid, post), BODY_SENTINEL, |pre|)
    ensures OccursAt(Around(pre, mid, post), CL_SENTINEL, |pre| + 8 + |mid|)
  {
    var w, b, c := Around(pre, mid, post), |pre|, |pre| + 8 + |mid|;
    assert w[b..b + 8] == BODY_SENTINEL;
    assert w[c..c + 12] == CL_SENTINEL;
  }

  lemma AroundUnique(pre: seq<byte>, mid: seq<byte>, post: seq<byte>)
    requires Clear(pre) && Clear(mid) && Clear(post)
    ensures UniqueAt(Around(pre, mid, post), BODY_SENTINEL, |pre|)
    ensures UniqueAt(Around(pre, mid, post), CL_SENTINEL, |pre| + 8 + |mid|)
  {
    var w := Around(pre, mid, post);
    AroundHas(pre, mid, post);
    forall j | OccursAt(w, BODY_SENTINEL, j) ensures j == |pre| {
      BodyBytes(w, j);
      AroundAt(pre, mid, post, j);
    }
    forall j | OccursAt(w, CL_SENTINEL, j) ensures j == |pre| + 8 + |mid| {
      LengthBytes(w, j);
      AroundAt(pre, mid, post, j);
    }
  }

  /** With its sentinels at `b` and `c`, the builder's splice is not the reference frame. */
  ghost predicate Mispatched(d: EnvelopeSpecBuilder, b: nat, c: nat, lay: Layout, tx: seq<byte>) {
    && UniqueAt(Wire(d), BODY_SENTINEL, b) && UniqueAt(Wire(d), CL_SENTINEL, c)
    && Placed(Wire(d), b, c) && lay.Valid() && |Wire(d)| + |Base64.Encode(tx)| < FIELD_LIMIT
    && SpliceOf(lay, tx) != Ok(Render(Wire(d), b, c, Base64.Encode(tx)))
  }

  /** Wherever the body sentinel comes first, every transaction that does not fill the slot is mispatched. */
  lemma BodyFirstIsMispatched(d: EnvelopeSpecBuilder, lay: Layout, b: nat, c: nat, tx: seq<byte>)
    requires UniqueAt(Wire(d), BODY_SENTINEL, b) && UniqueAt(Wire(d), CL_SENTINEL, c) && b < c
    requires FitsField(SpecOf(d)) && Base64.EncodedLen(|tx|) < d.maxBody
    requires LayoutOf(SpecOf(d), lay) && lay.Valid()
    ensures Mispatched(d, b, c, lay, tx)
  {
    SpliceIsSubstitution(d, lay, b, c, tx);
    assert !OccursAt(d.bodyTpl, BODY_SENTINEL, b - (c + 16));
  }

  // A concrete one

  lemma ThreeLines(a: seq<byte>, b: seq<byte>, c: seq<byte>)
    ensures Unlines([a, b, c]) == a + [CR, LF] + (b + [CR, LF]) + (c + [CR, LF])
  {
    UnlinesSnoc([], a);
    UnlinesSnoc([a], b);
    UnlinesSnoc([a, b], c);
    assert [] + [a] == [a] && [a] + [b] == [a, b] && [a, b] + [c] == [a, b, c];
    assert Unlines([]) + a == a;
    var ab := a + [CR, LF];
    Assoc(ab, b, [CR, LF]);
    Assoc(ab + (b + [CR, LF]), c, [CR, LF]);
  }

  function HostLine(d: EnvelopeSpecBuilder): seq<byte> { Ascii("Host: ") + d.host + [CR, LF] }

  function KindLine(): seq<byte> { Ascii("Content-Type: application/json") + [CR, LF] }

  /** What follows the path, up to the Content-Length field. */
  function AfterPath(d: EnvelopeSpecBuilder): seq<byte> {
    Ascii(" HTTP/1.1") + [CR, LF] + HostLine(d) + (KindLine() + Ascii("Content-Length: "))
  }

  lemma AfterPathClear(d: EnvelopeSpecBuilder)
    requires Clear(d.host)
    ensures Clear(AfterPath(d))
  {
    assert Clear(Ascii(" HTTP/1.1") + [CR, LF]) && Clear(HostLine(d));
    assert Clear(KindLine() + Ascii("Content-Length: "));
  }

  lemma PlainHead(d: EnvelopeSpecBuilder)
    requires d.auth.NoAuth? && d.extraHeaders == []
    ensures Unlines(HeadLines(d)) == RequestLine(d) + [CR, LF] + HostLine(d) + KindLine()
  {
    ThreeLines(RequestLine(d), Ascii("Host: ") + d.host, Ascii("Content-Type: application/json"));
    assert HeadLines(d) == FixedLines(d);
  }

  lemma PathWire(d: EnvelopeSpecBuilder, path: seq<byte>)
    requires d.auth.NoAuth? && d.extraHeaders == [] && d.basePath == path + BODY_SENTINEL
    ensures Wire(d) == Around(d.httpMethod + Ascii(" ") + path, AfterPath(d), BLANK_LINE + d.bodyTpl)
  {
    PlainHead(d);
    var verb, length := d.httpMethod + Ascii(" "), Ascii("Content-Length: ");
    var pre := verb + path + BODY_SENTINEL;
    var line := Ascii(" HTTP/1.1") + [CR, LF] + HostLine(d);
    Assoc(verb, path, BODY_SENTINEL);
    Assoc4(pre, Ascii(" HTTP/1.1"), [CR, LF], HostLine(d));
    Assoc(pre + line, KindLine(), length);
    Assoc(pre, line, KindLine() + length);
    var front := Unlines(HeadLines(d)) + Ascii("Content-Length: ");
    Assoc(front + CL_SENTINEL, BLANK_LINE, d.bodyTpl);
  }

  /** A body sentinel that ends the path, in a builder without any other `<`. */
  lemma SentinelInPath(d: EnvelopeSpecBuilder, path: seq<byte>, lay: Layout, tx: seq<byte>)
    requires d.auth.NoAuth? && d.extraHeaders == [] && d.basePath == path + BODY_SENTINEL
    requires Clear(d.httpMethod) && Clear(path) && Clear(d.host) && Clear(d.bodyTpl)
    requires d.maxBody >= 8 && FitsField(SpecOf(d)) && Base64.EncodedLen(|tx|) < d.maxBody
    ensures Compilable(SpecOf(d))
    ensures LayoutOf(SpecOf(d), lay) && lay.Valid() ==> exists b: nat, c: nat :: Mispatched(d, b, c, lay, tx)
  {
    var pre, mid := d.httpMethod + Ascii(" ") + path, AfterPath(d);
    PathWire(d, path);
    AfterPathClear(d);
    AroundUnique(pre, mid, BLANK_LINE + d.bodyTpl);
    BuilderCompiles(d);
    if LayoutOf(SpecOf(d), lay) && lay.Valid() {
      BodyFirstIsMispatched(d, lay, |pre|, |pre| + 8 + |mid|, tx);
    }
  }

  /** `POST /<<BODY>>` with body `{}` and a slot of 12 bytes. */
  function Example(): EnvelopeSpecBuilder {
    EnvelopeSpecBuilder(Ascii("POST"), Ascii("/") + BODY_SENTINEL, Ascii("rpc"), [], Ascii("{}"), 12, NoAuth)
  }

  lemma ExampleIsMispatched(lay: Layout)
    ensures Compilable(SpecOf(Example()))
    ensures LayoutOf(SpecOf(Example()), lay) && lay.Valid() ==>
              exists b: nat, c: nat :: Mispatched(Example(), b, c, lay, [])
  {
    PathWire(Example(), Ascii("/"));
    SentinelInPath(Example(), Ascii("/"), lay, []);
  }
}
