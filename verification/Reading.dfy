/** Reading a request back: an independent reader of HTTP/1.1 request text (RFC
    9112, sections 2 and 3), and what it makes of the text the builder prints. */
module Reading {
  import opened Bytes
  import opened Decimal
  import opened Envelope
  import opened Rendering
  import opened RoundTrip
  import Base64

  // The reader

  /** The text before the first occurrence of `sep` and the text after it. */
  function Cut(s: seq<byte>, sep: seq<byte>): (r: (seq<byte>, seq<byte>)) {
    match Find(s, sep)
    case None => (s, [])
    case Some(i) => (s[..i], s[i + |sep|..])
  }

  const CRLF: seq<byte> := [CR, LF]
  const BLANK: seq<byte> := [SPACE]

  /** The lines up to the first empty one, and the text after that. */
  function ReadHead(text: seq<byte>): (r: (seq<seq<byte>>, seq<byte>))
    decreases |text|
  {
    match Find(text, CRLF)
    case None => ([], text)
    case Some(i) =>
      if i == 0 then ([], text[2..])
      else
        var (lines, body) := ReadHead(text[i + 2..]);
        ([text[..i]] + lines, body)
  }

  datatype Request = Request(
    verb: seq<byte>,
    target: seq<byte>,
    version: seq<byte>,
    headers: seq<(seq<byte>, seq<byte>)>,
    body: seq<byte>)

  function Headers(lines: seq<seq<byte>>): (r: seq<(seq<byte>, seq<byte>)>)
    ensures |r| == |lines|
  {
    seq(|lines|, k requires 0 <= k < |lines| => Cut(lines[k], Ascii(": ")))
  }

  function Read(text: seq<byte>): (r: Option<Request>) {
    var (lines, body) := ReadHead(text);
    if lines == [] then None
    else
      var (verb, rest) := Cut(lines[0], BLANK);
      var (target, version) := Cut(rest, BLANK);
      Some(Request(verb, target, version, Headers(lines[1..]), body))
  }

  // Fields without separators of their own

  predicate Free(s: seq<byte>, c: byte) { forall i :: 0 <= i < |s| ==> s[i] != c }

  /** Usable as a header: one line, and no `: ` in the name. */
  predicate HeaderOk(name: seq<byte>, value: seq<byte>) {
    && Free(name, CR) && Free(value, CR)
    && forall i :: 0 <= i < |name| - 1 && name[i] == 58 ==> name[i + 1] != 32
  }

  predicate PathOk(s: seq<byte>) { Free(s, CR) && Free(s, 32) }

  predicate AuthOk(b: EnvelopeSpecBuilder) {
    match b.auth
    case NoAuth => true
    case Header(name, value) => HeaderOk(name, value)
    case UrlParam(key, param) => PathOk(key) && PathOk(param) && Free(b.basePath, 63) && Free(key, 61)
    case UrlPath(token) => PathOk(token)
  }

  predicate Separable(b: EnvelopeSpecBuilder) {
    && PathOk(b.httpMethod) && PathOk(b.basePath) && Free(b.host, CR) && AuthOk(b)
    && forall k :: 0 <= k < |b.extraHeaders| ==> HeaderOk(b.extraHeaders[k].0, b.extraHeaders[k].1)
  }

  // What the reader finds

  /** `p` is `path` without the slashes at its end. */
  predicate Unslashed(p: seq<byte>, path: seq<byte>) {
    && p <= path && (p != [] ==> p[|p| - 1] != 47)
    && forall k :: |p| <= k < |path| ==> path[k] == 47
  }

  /** The request target names the base path and carries the credentials where the builder was told to put them. */
  ghost predicate TargetOk(b: EnvelopeSpecBuilder, target: seq<byte>) {
    match b.auth
    case UrlParam(key, param) =>
      && Cut(target, Ascii("?")).0 == b.basePath
      && Cut(Cut(target, Ascii("?")).1, Ascii("=")) == (key, param)
      && |target| == |b.basePath| + |key| + |param| + 2
    case UrlPath(token) => exists p :: Unslashed(p, b.basePath) && target == p + Ascii("/") + token
    case _ => target == b.basePath
  }

  function AuthHeaders(b: EnvelopeSpecBuilder): seq<(seq<byte>, seq<byte>)> {
    if b.auth.Header? then [(b.auth.name, b.auth.value)] else []
  }

  // Cutting

  lemma CutAt(a: seq<byte>, sep: seq<byte>, b: seq<byte>)
    requires sep != [] && forall j :: 0 <= j < |a| ==> !OccursAt(a + sep + b, sep, j)
    ensures Find(a + sep + b, sep) == Some(|a|) && Cut(a + sep + b, sep).0 == a && Cut(a + sep + b, sep).1 == b
  {
    var s := a + sep + b;
    assert s[|a|..|a| + |sep|] == sep;
    FindIs(s, sep, |a|);
  }

  /** The first byte of the separator does not occur before it. */
  lemma CutFree(a: seq<byte>, sep: seq<byte>, b: seq<byte>)
    requires sep != [] && Free(a, sep[0])
    ensures Find(a + sep + b, sep) == Some(|a|) && Cut(a + sep + b, sep).0 == a && Cut(a + sep + b, sep).1 == b
  {
    forall j | 0 <= j < |a| ensures !OccursAt(a + sep + b, sep, j) {
      NotFirst(a + sep + b, sep, j);
    }
    CutAt(a, sep, b);
  }

  lemma NotFirst(s: seq<byte>, sep: seq<byte>, j: nat)
    requires sep != [] && j < |s| && s[j] != sep[0]
    ensures !OccursAt(s, sep, j)
  {
    if j + |sep| <= |s| { assert s[j..j + |sep|][0] == s[j]; }
  }

  lemma CutHeader(name: seq<byte>, value: seq<byte>)
    requires HeaderOk(name, value)
    ensures Cut(HeaderLine(name, value), Ascii(": ")).0 == name && Cut(HeaderLine(name, value), Ascii(": ")).1 == value
  {
    var sep := Ascii(": ");
    var s := name + sep + value;
    forall j | 0 <= j < |name| ensures !OccursAt(s, sep, j) {
      assert s[j] == name[j] && s[j + 1] == (if j + 1 < |name| then name[j + 1] else 58);
      NotSecond(s, sep, j);
    }
    CutAt(name, sep, value);
  }

  lemma NotSecond(s: seq<byte>, sep: seq<byte>, j: nat)
    requires |sep| == 2 && j + 1 < |s| && (s[j] == sep[0] ==> s[j + 1] != sep[1])
    ensures !OccursAt(s, sep, j)
  {
    if j + 2 <= |s| { assert s[j..j + 2][0] == s[j] && s[j..j + 2][1] == s[j + 1]; }
  }

  // Lines

  predicate LineOk(l: seq<byte>) { l != [] && Free(l, CR) }

  lemma {:induction false} ReadsLines(lines: seq<seq<byte>>, body: seq<byte>)
    requires forall k :: 0 <= k < |lines| ==> LineOk(lines[k])
    ensures ReadHead(Unlines(lines) + (CRLF + body)).0 == lines
    ensures ReadHead(Unlines(lines) + (CRLF + body)).1 == body
    decreases |lines|
  {
    if lines == [] {
      assert [] + CRLF + body == Unlines(lines) + (CRLF + body);
      CutFree([], CRLF, body);
    } else {
      var l, ls := lines[0], lines[1..];
      var rest := Unlines(ls) + (CRLF + body);
      assert lines == [l] + ls;
      UnlinesCons(l, ls);
      Assoc(l + CRLF, Unlines(ls), CRLF + body);
      CutFree(l, CRLF, rest);
      ReadsLines(ls, body);
    }
  }

  /** The builder's lines, the length line, an empty line and the body. */
  function Text(b: EnvelopeSpecBuilder, length: seq<byte>, body: seq<byte>): seq<byte> {
    Unlines(HeadLines(b)) + (CL_NAME + length + BLANK_LINE + body)
  }

  lemma {:induction false} TextIsLines(lines: seq<seq<byte>>, last: seq<byte>, body: seq<byte>)
    ensures Unlines(lines) + (last + BLANK_LINE + body) == Unlines(lines + [last]) + (CRLF + body)
  {
    var head := Unlines(lines);
    UnlinesSnoc(lines, last);
    assert BLANK_LINE == CRLF + CRLF;
    Assoc(last, CRLF, CRLF);
    Assoc(last + CRLF, CRLF, body);
    Assoc(head, last + CRLF, CRLF + body);
    Assoc(head, last, CRLF);
  }

  /** Every header the reader should find, in order. */
  function AllHeaders(b: EnvelopeSpecBuilder, length: seq<byte>): seq<(seq<byte>, seq<byte>)> {
    [(Ascii("Host"), b.host), (Ascii("Content-Type"), Ascii("application/json"))]
    + AuthHeaders(b) + b.extraHeaders + [(Ascii("Content-Length"), length)]
  }

  lemma LiteralLines(host: seq<byte>, length: seq<byte>)
    ensures HeaderLine(Ascii("Host"), host) == Ascii("Host: ") + host
    ensures HeaderLine(Ascii("Content-Type"), Ascii("application/json")) == Ascii("Content-Type: application/json")
    ensures HeaderLine(Ascii("Content-Length"), length) == CL_NAME + length
  {
    assert "Host: " == "Host" + ": ";
    assert "Content-Type: application/json" == "Content-Type" + ": " + "application/json";
    assert "Content-Length: " == "Content-Length" + ": ";
  }

  lemma LinesAre(b: EnvelopeSpecBuilder, length: seq<byte>)
    ensures HeadLines(b) + [CL_NAME + length] == [RequestLine(b)] + ExtraLines(AllHeaders(b, length))
  {
    LiteralLines(b.host, length);
  }

  lemma LiteralHeaders(host: seq<byte>, length: seq<byte>)
    requires Free(host, CR) && Free(length, CR)
    ensures HeaderOk(Ascii("Host"), host)
    ensures HeaderOk(Ascii("Content-Type"), Ascii("application/json"))
    ensures HeaderOk(Ascii("Content-Length"), length)
  {
  }

  lemma HeadersAreOk(b: EnvelopeSpecBuilder, length: seq<byte>)
    requires Separable(b) && Free(length, CR)
    ensures var hs := AllHeaders(b, length); forall k :: 0 <= k < |hs| ==> HeaderOk(hs[k].0, hs[k].1)
  {
    LiteralHeaders(b.host, length);
  }

  lemma HeadersRead(hs: seq<(seq<byte>, seq<byte>)>)
    requires forall k :: 0 <= k < |hs| ==> HeaderOk(hs[k].0, hs[k].1)
    ensures Headers(ExtraLines(hs)) == hs
    ensures forall k :: 0 <= k < |hs| ==> LineOk(ExtraLines(hs)[k])
  {
    forall k | 0 <= k < |hs| ensures Headers(ExtraLines(hs))[k] == hs[k] && LineOk(ExtraLines(hs)[k]) {
      CutHeader(hs[k].0, hs[k].1);
    }
  }

  // The request line

  lemma {:induction false} TrimsSlashes(path: seq<byte>)
    ensures Unslashed(TrimSlashes(path), path)
  {
    if path != [] && path[|path| - 1] == 47 {
      TrimsSlashes(path[..|path| - 1]);
    }
  }

  lemma TargetReads(b: EnvelopeSpecBuilder)
    requires AuthOk(b)
    ensures TargetOk(b, RequestPath(b))
  {
    match b.auth
    case UrlParam(key, param) =>
      var query := key + Ascii("=") + param;
      assert RequestPath(b) == b.basePath + Ascii("?") + query;
      CutFree(b.basePath, Ascii("?"), query);
      CutFree(key, Ascii("="), param);
    case UrlPath(token) => TrimsSlashes(b.basePath);
    case _ =>
  }

  lemma TargetIsPath(b: EnvelopeSpecBuilder)
    requires PathOk(b.basePath) && AuthOk(b)
    ensures PathOk(RequestPath(b))
  {
    if b.auth.UrlPath? { TrimsSlashes(b.basePath); }
  }

  /** A line of three words. */
  predicate Words(line: seq<byte>, verb: seq<byte>, target: seq<byte>, version: seq<byte>) {
    && Cut(line, BLANK).0 == verb
    && Cut(Cut(line, BLANK).1, BLANK) == (target, version)
  }

  lemma CutWords(verb: seq<byte>, target: seq<byte>, version: seq<byte>)
    requires PathOk(verb) && PathOk(target) && Free(version, CR)
    ensures Words(verb + BLANK + (target + BLANK + version), verb, target, version)
    ensures LineOk(verb + BLANK + (target + BLANK + version))
  {
    CutFree(verb, BLANK, target + BLANK + version);
    CutFree(target, BLANK, version);
  }

  const VERSION: seq<byte> := Ascii("HTTP/1.1")

  lemma Regroup(verb: seq<byte>, target: seq<byte>, version: seq<byte>)
    ensures verb + BLANK + target + (BLANK + version) == verb + BLANK + (target + BLANK + version)
  {
    Assoc(verb + BLANK, target, BLANK + version);
    Assoc(target, BLANK, version);
  }

  lemma RequestLineIs(b: EnvelopeSpecBuilder)
    ensures RequestLine(b) == b.httpMethod + BLANK + (RequestPath(b) + BLANK + VERSION)
    ensures Free(VERSION, CR)
  {
    assert Ascii(" ") == BLANK && Ascii(" HTTP/1.1") == BLANK + VERSION;
    Regroup(b.httpMethod, RequestPath(b), VERSION);
  }

  lemma RequestLineReads(b: EnvelopeSpecBuilder)
    requires PathOk(b.httpMethod) && PathOk(b.basePath) && AuthOk(b)
    ensures LineOk(RequestLine(b)) && Words(RequestLine(b), b.httpMethod, RequestPath(b), VERSION)
  {
    TargetIsPath(b);
    RequestLineIs(b);
    CutWords(b.httpMethod, RequestPath(b), VERSION);
  }

  // The theorem

  /** The request says what the builder was given, field by field. */
  ghost predicate Says(r: Request, b: EnvelopeSpecBuilder, length: seq<byte>, body: seq<byte>) {
    && r.verb == b.httpMethod && TargetOk(b, r.target) && r.version == VERSION
    && r.headers == AllHeaders(b, length)
    && r.body == body
  }

  lemma ReadsRequest(first: seq<byte>, hs: seq<(seq<byte>, seq<byte>)>, body: seq<byte>, r: Request)
    requires LineOk(first) && Words(first, r.verb, r.target, r.version)
    requires forall k :: 0 <= k < |hs| ==> HeaderOk(hs[k].0, hs[k].1)
    requires r.headers == hs && r.body == body
    ensures Read(Unlines([first] + ExtraLines(hs)) + (CRLF + body)) == Some(r)
  {
    HeadersRead(hs);
    ReadsLines([first] + ExtraLines(hs), body);
    assert ([first] + ExtraLines(hs))[1..] == ExtraLines(hs);
  }

  lemma TextReads(b: EnvelopeSpecBuilder, length: seq<byte>, body: seq<byte>)
    requires Separable(b) && Free(length, CR)
    ensures var r := Read(Text(b, length, body)); r.Some? && Says(r.value, b, length, body)
  {
    TextIsLines(HeadLines(b), CL_NAME + length, body);
    LinesAre(b, length);
    HeadersAreOk(b, length);
    RequestLineReads(b);
    ReadsRequest(RequestLine(b), AllHeaders(b, length), body, Request(
                   b.httpMethod, RequestPath(b), VERSION, AllHeaders(b, length), body));
    TargetReads(b);
  }

  /** Reading the builder's text gives back its fields, with the sentinels still in place. */
  lemma WireReadsBack(b: EnvelopeSpecBuilder)
    requires Separable(b)
    ensures var r := Read(Wire(b)); r.Some? && Says(r.value, b, CL_SENTINEL, b.bodyTpl)
  {
    var head := Unlines(HeadLines(b));
    Assoc4(head, CL_NAME, CL_SENTINEL, BLANK_LINE);
    Assoc(head, CL_NAME + CL_SENTINEL + BLANK_LINE, b.bodyTpl);
    TextReads(b, CL_SENTINEL, b.bodyTpl);
  }

  /** The text reads as the builder's request with this body, and states the body's length. */
  ghost predicate Carries(text: seq<byte>, b: EnvelopeSpecBuilder, body: seq<byte>) {
    && |Dec(|body|)| <= 12
    && var r := Read(text); r.Some? && Says(r.value, b, Field(|body|, 12), body)
  }

  lemma {:induction false} LengthIsPlain(n: nat)
    requires |Dec(n)| <= 12
    ensures Free(Field(n, 12), CR)
  {
    LengthLineFacts(n);
    forall k | 0 <= k < 12 ensures Field(n, 12)[k] != CR {
      assert LengthLine(n)[16 + k] == Field(n, 12)[k];
    }
  }

  lemma {:induction false} MessageCarries(b: EnvelopeSpecBuilder, body: seq<byte>)
    requires Separable(b) && |Dec(|body|)| <= 12
    ensures Carries(Message(HeadLines(b), |body|, body), b, body)
  {
    LengthIsPlain(|body|);
    TextReads(b, Field(|body|, 12), body);
  }

  /** Reading the frame spliced for a transaction: the same fields, the length of the body, and the filled body. */
  lemma {:induction false} FrameReadsBack(b: EnvelopeSpecBuilder, left: seq<byte>, right: seq<byte>, lay: Layout,
                                          tx: seq<byte>)
    requires Separable(b) && SentinelInBody(b, left, right) && CleanHead(b)
    requires LayoutOf(SpecOf(b), lay) && lay.Valid() && FitsField(SpecOf(b))
    requires Base64.EncodedLen(|tx|) <= b.maxBody
    ensures SpliceOf(lay, tx).Ok? && Carries(SpliceOf(lay, tx).value, b, left + Base64.Encode(tx) + right)
  {
    SpliceIsMessage(b, left, right, lay, tx);
    MessageCarries(b, left + Base64.Encode(tx) + right);
  }
}
