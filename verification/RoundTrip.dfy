/** Printing and parsing agree: the framer reads back exactly the body of a
    spliced frame, and the base64 slot of that body holds the transaction. */
module RoundTrip {
  import opened Bytes
  import opened Decimal
  import opened Envelope
  import opened Framing
  import opened Rendering
  import Base64

  const CL_NAME: seq<byte> := Ascii("Content-Length: ")

  predicate NoLF(s: seq<byte>) { LF !in s }

  /** What a caller must keep out of the request line and the headers: line feeds and a second Content-Length. */
  predicate CleanLine(l: seq<byte>) {
    l != [] && NoLF(l) && !IsContentLength(l)
  }

  predicate CleanHead(d: EnvelopeSpecBuilder) {
    forall l :: l in HeadLines(d) ==> CleanLine(l)
  }

  /** Header text built from Rust strings. */
  predicate TextHead(d: EnvelopeSpecBuilder) {
    forall l :: l in HeadLines(d) ==> Utf8(l)
  }

  // Header lines

  lemma {:induction false} UnlinesCons(l: seq<byte>, ls: seq<seq<byte>>)
    ensures Unlines([l] + ls) == l + [CR, LF] + Unlines(ls)
    decreases |ls|
  {
    var all := [l] + ls;
    if ls == [] {
      assert all[..0] == [];
    } else {
      var init, last := ls[..|ls| - 1], ls[|ls| - 1];
      assert all[..|ls|] == [l] + init;
      UnlinesCons(l, init);
      assert Unlines(all) == l + [CR, LF] + Unlines(init) + last + [CR, LF];
    }
  }

  lemma NextLineIs(l: seq<byte>, rest: seq<byte>)
    requires NoLF(l)
    ensures l + [CR, LF] + rest != [] && NextLine(l + [CR, LF] + rest) == (l, rest)
  {
    var text := l + [CR, LF] + rest;
    var i := |l| + 1;
    assert text[i..i + 1] == [LF];
    forall j | 0 <= j < i ensures !OccursAt(text, [LF], j) {
      assert text[j..j + 1][0] == text[j] != LF;
    }
    FindIs(text, [LF], i);
    assert text[..i - 1] == l && text[i + 1..] == rest;
  }

  lemma {:induction false} SkipsLine(l: seq<byte>, rest: seq<byte>)
    requires CleanLine(l)
    ensures FieldValue(l + [CR, LF] + rest) == FieldValue(rest)
  {
    NextLineIs(l, rest);
  }

  /** Clean lines are passed over by the search for Content-Length. */
  lemma {:induction false} SkipsLines(lines: seq<seq<byte>>, tail: seq<byte>)
    requires forall l :: l in lines ==> CleanLine(l)
    ensures FieldValue(Unlines(lines) + tail) == FieldValue(tail)
    decreases |lines|
  {
    if lines == [] {
      assert Unlines(lines) + tail == tail;
    } else {
      var l, rest := lines[0], lines[1..];
      UnlinesCons(l, rest);
      assert lines == [l] + rest;
      assert Unlines(lines) + tail == l + [CR, LF] + (Unlines(rest) + tail);
      SkipsLine(l, Unlines(rest) + tail);
      SkipsLines(rest, tail);
    }
  }

  /** No line feed among the first two bytes: nothing a blank line could end in. */
  predicate StartsLine(s: seq<byte>) {
    |s| >= 2 && s[0] != LF && s[1] != LF
  }

  lemma NoEarlierBlank(l: seq<byte>, rest: seq<byte>, j: nat)
    requires l != [] && NoLF(l) && StartsLine(rest) && j < |l| + 2
    ensures !OccursAt(l + [CR, LF] + rest, BLANK_LINE, j)
  {
    var text, n := l + [CR, LF] + rest, |l| + 2;
    if OccursAt(text, BLANK_LINE, j) {
      OccursAtByte(text, BLANK_LINE, j, 0);
      OccursAtByte(text, BLANK_LINE, j, 1);
      OccursAtByte(text, BLANK_LINE, j, 3);
    }
  }

  lemma OccursInTail(p: seq<byte>, s: seq<byte>, needle: seq<byte>, j: nat)
    ensures OccursAt(p + s, needle, |p| + j) == OccursAt(s, needle, j)
  {
    if j + |needle| <= |s| {
      assert (p + s)[|p| + j..|p| + j + |needle|] == s[j..j + |needle|];
    }
  }

  /** A line in front of text that starts a line adds no blank line. */
  lemma BlankAfterLine(l: seq<byte>, rest: seq<byte>)
    requires l != [] && NoLF(l) && StartsLine(rest) && Find(rest, BLANK_LINE).Some?
    ensures StartsLine(l + [CR, LF] + rest)
    ensures Find(l + [CR, LF] + rest, BLANK_LINE) == Some(|l| + 2 + Find(rest, BLANK_LINE).value)
  {
    var p, i := l + [CR, LF], Find(rest, BLANK_LINE).value;
    OccursInTail(p, rest, BLANK_LINE, i);
    forall j | 0 <= j < |p| + i ensures !OccursAt(p + rest, BLANK_LINE, j) {
      if j < |p| {
        NoEarlierBlank(l, rest, j);
      } else {
        OccursInTail(p, rest, BLANK_LINE, j - |p|);
      }
    }
    FindIs(p + rest, BLANK_LINE, |p| + i);
  }

  lemma {:induction false} BlankAfterLines(lines: seq<seq<byte>>, tail: seq<byte>)
    requires forall l :: l in lines ==> CleanLine(l)
    requires StartsLine(tail) && Find(tail, BLANK_LINE).Some?
    ensures StartsLine(Unlines(lines) + tail)
    ensures Find(Unlines(lines) + tail, BLANK_LINE) == Some(|Unlines(lines)| + Find(tail, BLANK_LINE).value)
    decreases |lines|
  {
    if lines == [] {
      assert Unlines(lines) + tail == tail;
    } else {
      var l, rest := lines[0], lines[1..];
      UnlinesCons(l, rest);
      assert lines == [l] + rest;
      assert CleanLine(l);
      assert Unlines(lines) + tail == l + [CR, LF] + (Unlines(rest) + tail);
      BlankAfterLines(rest, tail);
      BlankAfterLine(l, Unlines(rest) + tail);
    }
  }

  lemma {:induction false} Utf8Lines(lines: seq<seq<byte>>)
    requires forall l :: l in lines ==> Utf8(l)
    ensures Utf8(Unlines(lines))
    decreases |lines|
  {
    if lines != [] {
      var init, last := lines[..|lines| - 1], lines[|lines| - 1];
      Utf8Lines(init);
      Utf8Concat(Unlines(init), last);
      Utf8Ascii([CR, LF]);
      Utf8Concat(Unlines(init) + last, [CR, LF]);
    }
  }

  // The length field

  lemma {:induction false} TrimsSpaces(s: seq<byte>, k: nat)
    requires BlankBack(s) == 0
    ensures TrimEnd(s + Spaces(k)) == s
    decreases k
  {
    if k == 0 {
      assert s + Spaces(0) == s;
    } else {
      var t := s + Spaces(k);
      assert BlankBack(t) == 1;
      assert t[..|t| - 1] == s + Spaces(k - 1);
      TrimsSpaces(s, k - 1);
    }
  }

  lemma {:induction false} TrimsOneSpace(f: seq<byte>)
    requires BlankFront(f) == 0
    ensures TrimStart([SPACE] + f) == f
  {
    var t := [SPACE] + f;
    assert BlankFront(t) == 1 && t[1..] == f;
  }

  lemma {:induction false} NumeralIsNotBlank(n: nat, k: nat)
    ensures BlankFront(Dec(n) + Spaces(k)) == 0 && BlankBack(Dec(n)) == 0
  {
    var f := Dec(n) + Spaces(k);
    assert IsDigit(Dec(n)[0]) && f[0] == Dec(n)[0];
    assert IsDigit(Dec(n)[|Dec(n)| - 1]);
  }

  /** Trimming the padded field leaves its numeral. */
  lemma {:induction false} FieldParses(n: nat)
    requires |Dec(n)| <= 12 && n < U64
    ensures ParseUsize(Trim([SPACE] + Field(n, 12))) == Some(n)
  {
    var k := 12 - |Dec(n)|;
    NumeralIsNotBlank(n, k);
    TrimsOneSpace(Field(n, 12));
    TrimsSpaces(Dec(n), k);
    ParseOfDec(n);
  }

  /** The length line and the blank line after it. */
  function LengthLine(n: nat): (r: seq<byte>)
    requires |Dec(n)| <= 12
    ensures |r| == 28
  {
    CL_NAME + Field(n, 12)
  }

  lemma {:induction false} LengthLineStart(n: nat)
    requires |Dec(n)| <= 12
    ensures IsContentLength(LengthLine(n)) && LengthLine(n)[15..] == [SPACE] + Field(n, 12)
  {
    var l := LengthLine(n);
    assert forall k :: 0 <= k < 16 ==> l[k] == CL_NAME[k];
    assert forall k :: 0 <= k < 15 ==> Lower(l[k]) == PREFIX[k];
    assert l[15..] == [CL_NAME[15]] + Field(n, 12);
  }

  lemma {:induction false} LengthLineBytes(n: nat, k: nat)
    requires |Dec(n)| <= 12 && k < 28
    ensures var b := LengthLine(n)[k]; b != CR && b != LF && b < 0x80
  {
    assert LengthLine(n)[k] == if k < 16 then CL_NAME[k] else Field(n, 12)[k - 16];
  }

  lemma {:induction false} LengthLineFacts(n: nat)
    requires |Dec(n)| <= 12
    ensures NoLF(LengthLine(n)) && CR !in LengthLine(n)
    ensures IsContentLength(LengthLine(n)) && LengthLine(n)[15..] == [SPACE] + Field(n, 12)
    ensures Utf8(LengthLine(n))
  {
    LengthLineStart(n);
    forall k | 0 <= k < 28 ensures var b := LengthLine(n)[k]; b != CR && b != LF && b < 0x80 {
      LengthLineBytes(n, k);
    }
    Utf8Ascii(LengthLine(n));
  }

  /** A message as the envelope lays it out. */
  function Message(lines: seq<seq<byte>>, n: nat, body: seq<byte>): seq<byte>
    requires |Dec(n)| <= 12
  {
    Unlines(lines) + (LengthLine(n) + BLANK_LINE + body)
  }

  lemma {:induction false} TailBlank(n: nat, body: seq<byte>)
    requires |Dec(n)| <= 12
    ensures var tail := LengthLine(n) + BLANK_LINE + body;
            StartsLine(tail) && Find(tail, BLANK_LINE) == Some(28)
  {
    LengthLineFacts(n);
    var l := LengthLine(n);
    var tail := l + BLANK_LINE + body;
    assert tail[28..32] == BLANK_LINE;
    forall j | 0 <= j < 28 ensures !OccursAt(tail, BLANK_LINE, j) {
      assert tail[j] == l[j];
      if OccursAt(tail, BLANK_LINE, j) { OccursAtByte(tail, BLANK_LINE, j, 0); }
    }
    FindIs(tail, BLANK_LINE, 28);
    assert tail[0] == l[0] && tail[1] == l[1];
  }

  lemma {:induction false} LengthFound(n: nat)
    requires |Dec(n)| <= 12
    ensures FieldValue(LengthLine(n) + BLANK_LINE) == Some([SPACE] + Field(n, 12))
  {
    LengthLineFacts(n);
    assert LengthLine(n) + BLANK_LINE == LengthLine(n) + [CR, LF] + [CR, LF];
    NextLineIs(LengthLine(n), [CR, LF]);
  }

  lemma {:induction false} HeadIsText(lines: seq<seq<byte>>, n: nat)
    requires |Dec(n)| <= 12
    requires forall l :: l in lines ==> Utf8(l)
    ensures Utf8(Unlines(lines) + (LengthLine(n) + BLANK_LINE))
  {
    LengthLineFacts(n);
    Utf8Lines(lines);
    Utf8Ascii(BLANK_LINE);
    Utf8Concat(LengthLine(n), BLANK_LINE);
    Utf8Concat(Unlines(lines), LengthLine(n) + BLANK_LINE);
  }

  lemma {:induction false} HeadLength(lines: seq<seq<byte>>, n: nat)
    requires |Dec(n)| <= 12 && n < U64
    requires forall l :: l in lines ==> CleanLine(l) && Utf8(l)
    ensures ContentLength(Unlines(lines) + (LengthLine(n) + BLANK_LINE)) == Some(n)
  {
    HeadIsText(lines, n);
    SkipsLines(lines, LengthLine(n) + BLANK_LINE);
    LengthFound(n);
    FieldParses(n);
  }

  /** A message with clean headers and a truthful length is one response, and its body is the message's. */
  lemma {:induction false} MessageIsResponse(lines: seq<seq<byte>>, body: seq<byte>)
    requires |Dec(|body|)| <= 12 && |body| < U64
    requires forall l :: l in lines ==> CleanLine(l) && Utf8(l)
    ensures IsResponse(Message(lines, |body|, body)) && BodyOf(Message(lines, |body|, body)) == body
  {
    var n := |body|;
    var tail := LengthLine(n) + BLANK_LINE + body;
    var m := Message(lines, n, body);
    TailBlank(n, body);
    BlankAfterLines(lines, tail);
    var end := |Unlines(lines)| + 32;
    assert m[..end] == Unlines(lines) + (LengthLine(n) + BLANK_LINE);
    assert m[end..] == body;
    HeadLength(lines, n);
  }

  // Spliced frames

  /** Where the builder's own length field stands in its wire text. */
  function LengthAt(d: EnvelopeSpecBuilder): nat { |Unlines(HeadLines(d))| + 16 }

  /** The body sentinel splits the body template into `left` and `right`, and no other sentinel occurs. */
  ghost predicate SentinelInBody(d: EnvelopeSpecBuilder, left: seq<byte>, right: seq<byte>) {
    && d.bodyTpl == left + BODY_SENTINEL + right
    && UniqueAt(Wire(d), CL_SENTINEL, LengthAt(d))
    && UniqueAt(Wire(d), BODY_SENTINEL, LengthAt(d) + 16 + |left|)
  }

  lemma {:induction false} SubstituteIsMessage(d: EnvelopeSpecBuilder, left: seq<byte>, right: seq<byte>,
                                               enc: seq<byte>, n: nat)
    requires d.bodyTpl == left + BODY_SENTINEL + right && |Dec(n)| <= 12
    ensures var b, c := LengthAt(d) + 16 + |left|, LengthAt(d);
            Placed(Wire(d), b, c)
            && Substitute(Wire(d), b, c, enc, Field(n, 12)) == Message(HeadLines(d), n, left + enc + right)
  {
    WireParts(Unlines(HeadLines(d)), CL_NAME, CL_SENTINEL, BLANK_LINE, left, BODY_SENTINEL, right, Wire(d));
    var head := Unlines(HeadLines(d));
    var front := head + CL_NAME + Field(n, 12);
    Assoc(front, BLANK_LINE, left);
    Assoc4(front + BLANK_LINE, left, enc, right);
    Assoc4(head, CL_NAME, Field(n, 12), BLANK_LINE);
    Assoc(head, LengthLine(n) + BLANK_LINE, left + enc + right);
  }

  lemma WireParts(a: seq<byte>, b: seq<byte>, c: seq<byte>, d: seq<byte>, e: seq<byte>, f: seq<byte>, g: seq<byte>,
                  wire: seq<byte>)
    requires wire == a + b + c + d + (e + f + g)
    ensures var i := |a| + |b| + |c|; var j := i + |d| + |e|;
            && j + |f| + |g| == |wire|
            && wire[..|a| + |b|] == a + b && wire[i..j] == d + e && wire[j + |f|..] == g
  {
    var i := |a| + |b| + |c|;
    assert wire[..|a| + |b|] == a + b;
    assert wire[i..] == d + (e + f + g);
    assert wire[i + |d|..] == e + f + g;
  }

  lemma {:induction false} MessageBodyLength(lines: seq<seq<byte>>, n: nat, body: seq<byte>)
    requires |Dec(n)| <= 12
    requires forall l :: l in lines ==> CleanLine(l)
    ensures BodyLength(Message(lines, n, body)) == |body|
  {
    TailBlank(n, body);
    BlankAfterLines(lines, LengthLine(n) + BLANK_LINE + body);
  }

  /** Whatever length the field is made to state, the frame is a message with these lines and this body. */
  ghost predicate Frames(wire: seq<byte>, b: nat, c: nat, enc: seq<byte>, lines: seq<seq<byte>>, body: seq<byte>) {
    && Placed(wire, b, c)
    && forall n: nat {:trigger Message(lines, n, body)} :: |Dec(n)| <= 12 ==>
         Substitute(wire, b, c, enc, Field(n, 12)) == Message(lines, n, body)
  }

  /** Then the reference frame is the message that states the length of its body. */
  lemma {:induction false} RenderSettles(wire: seq<byte>, b: nat, c: nat, enc: seq<byte>, lines: seq<seq<byte>>,
                                         body: seq<byte>)
    requires Frames(wire, b, c, enc, lines, body) && |wire| + |enc| < FIELD_LIMIT && NoLineEnd(wire, c, c + 12)
    requires forall l :: l in lines ==> CleanLine(l)
    ensures |Dec(|body|)| <= 12 && Render(wire, b, c, enc) == Message(lines, |body|, body)
  {
    RenderStatesItsLength(wire, b, c, enc);
    MessageBodyLength(lines, BodyLength(Render(wire, b, c, enc)), body);
  }

  lemma BuilderFrames(d: EnvelopeSpecBuilder, left: seq<byte>, right: seq<byte>, enc: seq<byte>, b: nat, c: nat,
                      body: seq<byte>)
    requires d.bodyTpl == left + BODY_SENTINEL + right && body == left + enc + right
    requires c == LengthAt(d) && b == c + 16 + |left|
    ensures Frames(Wire(d), b, c, enc, HeadLines(d), body)
  {
    assert |Dec(0)| == 1;
    SubstituteIsMessage(d, left, right, enc, 0);
    forall n: nat | |Dec(n)| <= 12
      ensures Substitute(Wire(d), b, c, enc, Field(n, 12)) == Message(HeadLines(d), n, body)
    {
      SubstituteIsMessage(d, left, right, enc, n);
    }
  }

  /** The reference frame of a clean builder is a message that states the length of its body. */
  lemma {:induction false} RenderIsMessage(d: EnvelopeSpecBuilder, left: seq<byte>, right: seq<byte>, enc: seq<byte>,
                                           b: nat, c: nat, body: seq<byte>)
    requires SentinelInBody(d, left, right) && CleanHead(d) && |Wire(d)| + |enc| < FIELD_LIMIT
    requires body == left + enc + right && c == LengthAt(d) && b == c + 16 + |left|
    ensures Placed(Wire(d), b, c) && |Dec(|body|)| <= 12
    ensures Render(Wire(d), b, c, enc) == Message(HeadLines(d), |body|, body)
  {
    BuilderPlaces(d, b, c);
    BuilderFrames(d, left, right, enc, b, c, body);
    RenderSettles(Wire(d), b, c, enc, HeadLines(d), body);
  }

  /**
    For every clean builder with its sentinel in the body template and every
    transaction that fits: the framer returns exactly the body of the spliced
    frame, takes no proper prefix of the frame for a whole one, and the slot of
    that body decodes to the transaction.
   */
  lemma {:induction false} FrameRoundTrip(d: EnvelopeSpecBuilder, left: seq<byte>, right: seq<byte>, lay: Layout,
                                          tx: seq<byte>)
    requires SentinelInBody(d, left, right) && CleanHead(d) && TextHead(d)
    requires LayoutOf(SpecOf(d), lay) && lay.Valid() && FitsField(SpecOf(d))
    requires Base64.EncodedLen(|tx|) <= d.maxBody
    ensures SpliceOf(lay, tx).Ok?
    ensures BodyIfComplete(SpliceOf(lay, tx).value) == Some(left + Base64.Encode(tx) + right)
    ensures forall n: nat :: n < |SpliceOf(lay, tx).value| ==> BodyIfComplete(SpliceOf(lay, tx).value[..n]) == None
    ensures var body := BodyIfComplete(SpliceOf(lay, tx).value).value;
            Base64.Decode(body[|left|..|body| - |right|]) == Some(tx)
  {
    var enc := Base64.Encode(tx);
    SpliceIsMessage(d, left, right, lay, tx);
    var frame, body := SpliceOf(lay, tx).value, left + enc + right;
    MessageIsResponse(HeadLines(d), body);
    ResponseIsComplete(frame);
    forall n: nat | n < |frame| ensures BodyIfComplete(frame[..n]) == None {
      PrefixIsIncomplete(frame, n);
    }
    assert body[|left|..|body| - |right|] == enc;
    Base64.RoundTrip(tx);
  }

  lemma {:induction false} SpliceIsMessage(d: EnvelopeSpecBuilder, left: seq<byte>, right: seq<byte>, lay: Layout,
                                           tx: seq<byte>)
    requires SentinelInBody(d, left, right) && CleanHead(d)
    requires LayoutOf(SpecOf(d), lay) && lay.Valid() && FitsField(SpecOf(d))
    requires Base64.EncodedLen(|tx|) <= d.maxBody
    ensures var body := left + Base64.Encode(tx) + right;
            |body| < FIELD_LIMIT && |Dec(|body|)| <= 12 && SpliceOf(lay, tx) == Ok(Message(HeadLines(d), |body|, body))
  {
    var b, c := LengthAt(d) + 16 + |left|, LengthAt(d);
    SpliceIsSubstitution(d, lay, b, c, tx);
    InTemplate(d, b, c);
    RenderIsMessage(d, left, right, Base64.Encode(tx), b, c, left + Base64.Encode(tx) + right);
    BuilderWire(d);
  }
}
