/** The HTTP request envelope: the builder that prints the wire text with two
    sentinels (spec_builder.rs), the compiler that turns it into a padded buffer
    with offsets, and the splicer that rebuilds one frame per job (envelope.rs). */
module Envelope {
  import opened Bytes
  import opened Decimal
  import Base64

  const BODY_SENTINEL: seq<byte> := Ascii("<<BODY>>")
  const CL_SENTINEL: seq<byte> := Ascii("<<CL>>      ")
  const CL_WIDTH: nat := 12
  const U32: int := 0x1_0000_0000
  const FIELD_LIMIT: int := 1_000_000_000_000 // lengths a field of 12 digits can state

  // The request builder

  datatype AuthPlacement =
    | NoAuth
    | Header(name: seq<byte>, value: seq<byte>)
    | UrlParam(key: seq<byte>, param: seq<byte>)
    | UrlPath(token: seq<byte>)

  datatype EnvelopeSpecBuilder = EnvelopeSpecBuilder(
    httpMethod: seq<byte>,
    basePath: seq<byte>,
    host: seq<byte>,
    extraHeaders: seq<(seq<byte>, seq<byte>)>,
    bodyTpl: seq<byte>,
    maxBody: nat,
    auth: AuthPlacement)

  datatype BodyPlaceholder = BodyPlaceholder(sentinel: seq<byte>, maxLen: nat)

  datatype ContentLengthSpec = ContentLengthSpec(sentinel: seq<byte>, width: nat)

  datatype EnvelopeSpec = EnvelopeSpec(
    bytes: seq<byte>,
    body: BodyPlaceholder,
    contentLength: Option<ContentLengthSpec>)

  /** `trim_end_matches('/')` */
  function TrimSlashes(s: seq<byte>): seq<byte> {
    if s != [] && s[|s| - 1] == 47 then TrimSlashes(s[..|s| - 1]) else s
  }

  function RequestPath(b: EnvelopeSpecBuilder): seq<byte> {
    match b.auth
    case UrlParam(key, param) => b.basePath + Ascii("?") + key + Ascii("=") + param
    case UrlPath(token) => TrimSlashes(b.basePath) + Ascii("/") + token
    case _ => b.basePath
  }

  function HeaderLine(name: seq<byte>, value: seq<byte>): seq<byte> {
    name + Ascii(": ") + value
  }

  function AuthLines(a: AuthPlacement): seq<seq<byte>> {
    if a.Header? then [HeaderLine(a.name, a.value)] else []
  }

  function RequestLine(b: EnvelopeSpecBuilder): seq<byte> {
    b.httpMethod + Ascii(" ") + RequestPath(b) + Ascii(" HTTP/1.1")
  }

  /** The lines before Content-Length, without their line ends. */
  function HeadLines(b: EnvelopeSpecBuilder): seq<seq<byte>> {
    FixedLines(b) + AuthLines(b.auth) + ExtraLines(b.extraHeaders)
  }

  function FixedLines(b: EnvelopeSpecBuilder): seq<seq<byte>> {
    [RequestLine(b), Ascii("Host: ") + b.host, Ascii("Content-Type: application/json")]
  }

  function ExtraLines(headers: seq<(seq<byte>, seq<byte>)>): (r: seq<seq<byte>>)
    ensures |r| == |headers|
  {
    seq(|headers|, i requires 0 <= i < |headers| => HeaderLine(headers[i].0, headers[i].1))
  }

  /** Every line followed by CR LF. */
  function Unlines(lines: seq<seq<byte>>): seq<byte> {
    if lines == [] then [] else Unlines(lines[..|lines| - 1]) + lines[|lines| - 1] + [CR, LF]
  }

  function Wire(b: EnvelopeSpecBuilder): seq<byte> {
    Unlines(HeadLines(b)) + Ascii("Content-Length: ") + CL_SENTINEL + BLANK_LINE + b.bodyTpl
  }

  function SpecOf(b: EnvelopeSpecBuilder): EnvelopeSpec {
    EnvelopeSpec(Wire(b), BodyPlaceholder(BODY_SENTINEL, b.maxBody),
                 Some(ContentLengthSpec(CL_SENTINEL, CL_WIDTH)))
  }

  lemma {:induction false} UnlinesSnoc(lines: seq<seq<byte>>, l: seq<byte>)
    ensures Unlines(lines + [l]) == Unlines(lines) + l + [CR, LF]
  {
    assert (lines + [l])[..|lines|] == lines;
  }

  /** Appends one line to the text written so far. */
  method WriteLine(wire: seq<byte>, ghost lines: seq<seq<byte>>, l: seq<byte>) returns (r: seq<byte>)
    requires wire == Unlines(lines)
    ensures r == Unlines(lines + [l])
  {
    UnlinesSnoc(lines, l);
    r := wire + l + [CR, LF];
  }

  method WriteFixed(b: EnvelopeSpecBuilder) returns (wire: seq<byte>)
    ensures wire == Unlines(FixedLines(b))
  {
    var request, host := RequestLine(b), Ascii("Host: ") + b.host;
    wire := WriteLine([], [], request);
    assert [] + [request] == [request];
    wire := WriteLine(wire, [request], host);
    assert [request] + [host] == [request, host];
    wire := WriteLine(wire, [request, host], Ascii("Content-Type: application/json"));
    assert [request, host] + [Ascii("Content-Type: application/json")] == FixedLines(b);
  }

  method WriteExtra(start: seq<byte>, ghost lines: seq<seq<byte>>, headers: seq<(seq<byte>, seq<byte>)>)
    returns (wire: seq<byte>)
    requires start == Unlines(lines)
    ensures wire == Unlines(lines + ExtraLines(headers))
  {
    wire := start;
    assert lines + ExtraLines(headers)[..0] == lines;
    for i := 0 to |headers|
      invariant wire == Unlines(lines + ExtraLines(headers)[..i])
    {
      var line := HeaderLine(headers[i].0, headers[i].1);
      ghost var done := lines + ExtraLines(headers)[..i];
      wire := WriteLine(wire, done, line);
      assert done + [line] == lines + ExtraLines(headers)[..i + 1];
    }
    assert ExtraLines(headers)[..|headers|] == ExtraLines(headers);
  }

  method Build(b: EnvelopeSpecBuilder) returns (spec: EnvelopeSpec)
    ensures spec == SpecOf(b)
  {
    var wire := WriteFixed(b);
    if b.auth.Header? {
      wire := WriteLine(wire, FixedLines(b), HeaderLine(b.auth.name, b.auth.value));
    }
    ghost var fixed := FixedLines(b) + AuthLines(b.auth);
    assert b.auth.Header? || fixed == FixedLines(b);
    wire := WriteExtra(wire, fixed, b.extraHeaders);
    wire := wire + Ascii("Content-Length: ") + CL_SENTINEL + BLANK_LINE;
    wire := wire + b.bodyTpl;
    spec := EnvelopeSpec(wire, BodyPlaceholder(BODY_SENTINEL, b.maxBody),
                         Some(ContentLengthSpec(CL_SENTINEL, CL_WIDTH)));
  }

  // The compiler

  datatype EnvelopeError =
    | BodySentinelMissing
    | BodyMaxTooSmall(maxLen: nat, sentinel: nat)
    | BodyTooLarge(encoded: nat, bodyMax: nat)
    | ContentLengthOverflow(value: nat, width: nat)
    | SliceOutOfRange // a panic in the source

  datatype Layout = Layout(
    buf: seq<byte>,
    bodyOff: nat,
    bodyMax: nat,
    clOff: Option<nat>,
    clWidth: nat,
    httpBodyStart: nat)
  {
    predicate Valid() {
      bodyOff + bodyMax <= |buf| < U64 && httpBodyStart <= |buf|
    }
  }

  /** The wire text with the body slot widened to `maxLen`. */
  function Padded(spec: EnvelopeSpec, b: nat): seq<byte>
    requires OccursAt(spec.bytes, spec.body.sentinel, b)
  {
    var s := |spec.body.sentinel|;
    if spec.body.maxLen > s
    then spec.bytes[..b] + Spaces(spec.body.maxLen) + spec.bytes[b + s..]
    else spec.bytes
  }

  ghost predicate Compilable(spec: EnvelopeSpec) {
    && spec.body.maxLen >= |spec.body.sentinel|
    && (exists b: nat :: UniqueAt(spec.bytes, spec.body.sentinel, b)
                      && Find(Padded(spec, b), BLANK_LINE).Some?)
    && (spec.contentLength.Some? ==>
          exists c: nat :: UniqueAt(spec.bytes, spec.contentLength.value.sentinel, c))
  }

  /** What the compiled offsets mean in terms of the wire text. */
  ghost predicate LayoutOf(spec: EnvelopeSpec, lay: Layout) {
    var s := |spec.body.sentinel|;
    && lay.bodyMax == spec.body.maxLen >= s
    && UniqueAt(spec.bytes, spec.body.sentinel, lay.bodyOff)
    && lay.buf == Padded(spec, lay.bodyOff)
    && Find(lay.buf, BLANK_LINE).Some?
    && lay.httpBodyStart == Find(lay.buf, BLANK_LINE).value + 4
    && match spec.contentLength
       case None => lay.clOff == None
       case Some(cl) =>
         lay.clWidth == cl.width && lay.clOff.Some?
         && exists c: nat ::
              && UniqueAt(spec.bytes, cl.sentinel, c)
              && lay.clOff.value == if c >= lay.bodyOff + s then c + (lay.bodyMax - s) else c
  }

  /** What the conversions to 32 bits demand of a spec whose body sentinel is at `b` and length field at `c`. */
  predicate OffsetsFit(spec: EnvelopeSpec, b: nat, c: Option<nat>)
    requires OccursAt(spec.bytes, spec.body.sentinel, b)
  {
    var s, max := |spec.body.sentinel|, spec.body.maxLen;
    && max < U32 && b < U32 && (max > s ==> b + s < U32)
    && (c.Some? ==> c.value + (if c.value >= b + s then max - s else 0) < U32)
    && (Find(Padded(spec, b), BLANK_LINE).Some? ==> Find(Padded(spec, b), BLANK_LINE).value + 4 < U32)
  }

  /** The offsets `compile` computes fit, and the padded text fits in memory. */
  ghost predicate Convertible(spec: EnvelopeSpec) {
    && |spec.bytes| + spec.body.maxLen < U64
    && forall b: nat :: UniqueAt(spec.bytes, spec.body.sentinel, b) && spec.body.maxLen >= |spec.body.sentinel| ==>
         match spec.contentLength
         case None => OffsetsFit(spec, b, None)
         case Some(cl) => forall c: nat :: UniqueAt(spec.bytes, cl.sentinel, c) ==> OffsetsFit(spec, b, Some(c))
  }

  /** The length of every body a frame of this spec can have fits the length field. */
  predicate FitsField(spec: EnvelopeSpec) {
    |spec.bytes| + spec.body.maxLen < FIELD_LIMIT
  }

  method FindUnique(haystack: seq<byte>, needle: seq<byte>) returns (r: Option<nat>)
    ensures r.Some? ==> UniqueAt(haystack, needle, r.value)
    ensures r.None? ==> forall i :: !UniqueAt(haystack, needle, i)
  {
    var found: Option<nat> := None;
    var i := 0;
    while i + |needle| <= |haystack|
      invariant 0 <= i
      invariant found.Some? ==> found.value < i && OccursAt(haystack, needle, found.value)
      invariant forall j :: j < i && OccursAt(haystack, needle, j) ==> found == Some(j)
      decreases |haystack| - i
    {
      if haystack[i..i + |needle|] == needle {
        if found.Some? {
          assert OccursAt(haystack, needle, i) && found.value != i;
          return None;
        }
        found := Some(i);
      }
      i := i + 1;
    }
    return found;
  }

  /** The bytes before, in and after the slot, with the base64 text in it. */
  function Spliced(lay: Layout, enc: seq<byte>): seq<byte>
    requires lay.Valid()
  {
    lay.buf[..lay.bodyOff] + enc + lay.buf[lay.bodyOff + lay.bodyMax..]
  }

  /** Subtraction of `usize` values, wrapping. */
  function WrappingSub(a: nat, b: nat): (r: nat)
    requires a < U64 && b < U64
    ensures r < U64
  {
    if b <= a then a - b else a - b + U64
  }

  /** A numeral left-justified in a field of `width` bytes. */
  function Field(n: nat, width: nat): (r: seq<byte>)
    requires |Dec(n)| <= width
    ensures |r| == width
    ensures IsDigit(r[0])
    ensures forall i :: 0 <= i < |r| ==> IsDigit(r[i]) || r[i] == SPACE
  {
    Dec(n) + Spaces(width - |Dec(n)|)
  }

  function Patch(s: seq<byte>, off: nat, field: seq<byte>): (r: seq<byte>)
    requires off + |field| <= |s|
    ensures |r| == |s|
  {
    s[..off] + field + s[off + |field|..]
  }

  function SpliceOf(lay: Layout, tx: seq<byte>): (r: Result<seq<byte>, EnvelopeError>)
    requires lay.Valid()
  {
    if Base64.EncodedLen(|tx|) > lay.bodyMax
    then Err(BodyTooLarge(Base64.EncodedLen(|tx|), lay.bodyMax))
    else SpliceEncoded(lay, Base64.Encode(tx))
  }

  function SpliceEncoded(lay: Layout, enc: seq<byte>): (r: Result<seq<byte>, EnvelopeError>)
    requires lay.Valid() && |enc| <= lay.bodyMax
  {
    var raw := Spliced(lay, enc);
    if lay.clOff.None? then Ok(raw)
    else
      var n := WrappingSub(|raw|, lay.httpBodyStart);
      if |Dec(n)| > lay.clWidth then Err(ContentLengthOverflow(n, lay.clWidth))
      else if lay.clOff.value + lay.clWidth > |raw| then Err(SliceOutOfRange)
      else Ok(Patch(raw, lay.clOff.value, Field(n, lay.clWidth)))
  }

  lemma BlankNext(s: seq<byte>, i: nat, k: nat)
    requires i <= k < |s|
    ensures (s[..i] + Spaces(k - i) + s[k..])[k := SPACE] == s[..i] + Spaces(k + 1 - i) + s[k + 1..]
  {
  }

  class EnvelopeTemplate {
    const layout: Layout
    var out: seq<byte>

    constructor (lay: Layout)
      ensures layout == lay && out == []
    {
      layout := lay;
      out := [];
    }

    /** Every call yields the frame of its own transaction, whatever earlier calls left in `out`. */
    method Splice(tx: seq<byte>) returns (r: Result<seq<byte>, EnvelopeError>)
      requires layout.Valid()
      modifies this
      ensures r == SpliceOf(layout, tx)
      ensures r.Ok? ==> out == r.value
    {
      var needed := Base64.EncodedLen(|tx|);
      if needed > layout.bodyMax {
        return Err(BodyTooLarge(needed, layout.bodyMax));
      }
      out := [];
      out := out + layout.buf[..layout.bodyOff];
      var bodyStart := |out|;
      out := out + seq(needed, i => 0);
      var encoded := Base64.Encode(tx);
      out := out[..bodyStart] + encoded + out[bodyStart + |encoded|..];
      out := out[..bodyStart + |encoded|];
      out := out + layout.buf[layout.bodyOff + layout.bodyMax..];
      var realLen := |out|;
      assert out == Spliced(layout, encoded);

      if layout.clOff.Some? {
        var off := layout.clOff.value;
        var n := WrappingSub(realLen, layout.httpBodyStart);
        var digits := Digits(n);
        if |digits| > layout.clWidth {
          return Err(ContentLengthOverflow(n, layout.clWidth));
        }
        if off + layout.clWidth > realLen {
          return Err(SliceOutOfRange);
        }
        PatchLength(off, digits);
        assert digits + Spaces(layout.clWidth - |digits|) == Field(n, layout.clWidth);
      }
      assert out[..realLen] == out;
      return Ok(out[..realLen]);
    }

    /** Overwrites the Content-Length field with the digits and pads it with blanks. */
    method PatchLength(off: nat, digits: seq<byte>)
      requires |digits| <= layout.clWidth && off + layout.clWidth <= |out|
      modifies this
      ensures out == Patch(old(out), off, digits + Spaces(layout.clWidth - |digits|))
    {
      out := out[..off] + digits + out[off + |digits|..];
      ghost var before := out;
      for k := off + |digits| to off + layout.clWidth
        invariant out == before[..off + |digits|] + Spaces(k - off - |digits|) + before[k..]
      {
        BlankNext(before, off + |digits|, k);
        out := out[k := SPACE];
      }
    }
  }

  /** The digit loop: twenty bytes of scratch are enough for every `usize`. */
  method Digits(value: nat) returns (digits: seq<byte>)
    requires value < U64
    ensures digits == Dec(value)
  {
    TwentyDigits(value);
    var scratch := new byte[20](_ => 0);
    var n := value;
    var pos := scratch.Length;
    while true
      invariant 0 <= pos <= 20
      invariant Dec(value) == Dec(n) + scratch[pos..]
      decreases n
    {
      pos := pos - 1;
      ghost var tail := scratch[pos + 1..];
      scratch[pos] := 48 + n % 10;
      assert scratch[pos..] == [48 + n % 10] + tail;
      if n / 10 == 0 {
        assert Dec(value) == scratch[pos..];
        break;
      }
      n := n / 10;
    }
    digits := scratch[pos..];
  }

  lemma {:induction false} TwentyDigits(value: nat)
    requires value < U64
    ensures |Dec(value)| <= 20
  {
    assert Pow10(20) == 100_000_000_000_000_000_000 by {
      assert Pow10(10) == 10_000_000_000;
    }
    DecLength(value, 20);
  }

  method Compile(spec: EnvelopeSpec) returns (r: Result<EnvelopeTemplate, EnvelopeError>)
    requires Convertible(spec)
    ensures r.Ok? <==> Compilable(spec)
    ensures r.Err? ==> r.error == if spec.body.maxLen < |spec.body.sentinel|
                                  then BodyMaxTooSmall(spec.body.maxLen, |spec.body.sentinel|)
                                  else BodySentinelMissing
    ensures r.Ok? ==> fresh(r.value) && LayoutOf(spec, r.value.layout) && r.value.layout.Valid()
  {
    var sentinelLen := |spec.body.sentinel|;
    if spec.body.maxLen < sentinelLen {
      return Err(BodyMaxTooSmall(spec.body.maxLen, sentinelLen));
    }
    var found := FindUnique(spec.bytes, spec.body.sentinel);
    if found.None? {
      return Err(BodySentinelMissing);
    }
    var bodyOff := found.value;

    var clOff: Option<nat>, clWidth := None, 0;
    ghost var cl: nat := 0;
    if spec.contentLength.Some? {
      var off := FindUnique(spec.bytes, spec.contentLength.value.sentinel);
      if off.None? {
        return Err(BodySentinelMissing);
      }
      cl := off.value;
      clOff, clWidth := off, spec.contentLength.value.width;
    }

    var maxLen, buf := spec.body.maxLen, spec.bytes;
    if maxLen > sentinelLen {
      var padded := spec.bytes[..bodyOff];
      padded := padded + Spaces(maxLen);
      padded := padded + spec.bytes[bodyOff + sentinelLen..];
      buf := padded;
      var delta := maxLen - sentinelLen;
      var shiftThreshold := bodyOff + sentinelLen;
      assert delta < U32 && shiftThreshold < U32;
      if clOff.Some? && clOff.value >= shiftThreshold {
        clOff := Some(clOff.value + delta);
      }
    }
    assert buf == Padded(spec, bodyOff);

    var headerSep := Find(buf, BLANK_LINE);
    if headerSep.None? {
      return Err(BodySentinelMissing);
    }
    assert maxLen < U32 && bodyOff < U32 && headerSep.value + 4 < U32 && (clOff.Some? ==> clOff.value < U32);
    var lay := Layout(buf, bodyOff, maxLen, clOff, clWidth, headerSep.value + 4);
    assert spec.contentLength.Some? ==> UniqueAt(spec.bytes, spec.contentLength.value.sentinel, cl);
    var t := new EnvelopeTemplate(lay);
    return Ok(t);
  }
}
