/** The splicer against plain textual substitution: which compiled templates
    render the frame one gets by replacing both sentinels in the wire text. */
module Rendering {
  import opened Bytes
  import opened Decimal
  import opened Envelope
  import Base64

  /** Where a body sentinel at `b` and a length field at `c` may stand. */
  predicate Placed(wire: seq<byte>, b: nat, c: nat) {
    (c + 12 <= b && b + 8 <= |wire|) || (b + 8 <= c && c + 12 <= |wire|)
  }

  /** The wire text with the body sentinel and the length field replaced. */
  function Substitute(wire: seq<byte>, b: nat, c: nat, enc: seq<byte>, field: seq<byte>): (r: seq<byte>)
    requires Placed(wire, b, c) && |field| == 12
    ensures |r| == |wire| - 8 + |enc|
  {
    if c < b then wire[..c] + field + wire[c + 12..b] + enc + wire[b + 8..]
    else wire[..b] + enc + wire[b + 8..c] + field + wire[c + 12..]
  }

  /** The number of bytes after the first blank line. */
  function BodyLength(frame: seq<byte>): (n: nat)
    ensures n <= |frame|
  {
    match Find(frame, BLANK_LINE)
    case Some(i) => |frame| - (i + 4)
    case None => 0
  }

  /** The reference frame: both sentinels replaced, the length field stating the real body length. */
  function Render(wire: seq<byte>, b: nat, c: nat, enc: seq<byte>): (r: seq<byte>)
    requires Placed(wire, b, c) && |wire| + |enc| < FIELD_LIMIT
  {
    var n := BodyLength(Substitute(wire, b, c, enc, wire[c..c + 12]));
    ShortNumeral(n);
    Substitute(wire, b, c, enc, Field(n, 12))
  }

  lemma {:induction false} ShortNumeral(n: nat)
    requires n < FIELD_LIMIT
    ensures |Dec(n)| <= 12
  {
    assert Pow10(12) == 1_000_000_000_000 by {
      assert Pow10(6) == 1_000_000;
    }
    DecLength(n, 12);
  }

  // Blank lines and fillers

  predicate NoLineEnd(s: seq<byte>, lo: nat, hi: nat)
    requires hi <= |s|
  {
    forall k :: lo <= k < hi ==> s[k] != CR && s[k] != LF
  }

  lemma BlankNeedsLineEnds(s: seq<byte>, lo: nat, hi: nat, j: nat)
    requires hi <= |s| && NoLineEnd(s, lo, hi)
    requires OccursAt(s, BLANK_LINE, j)
    ensures j + 4 <= lo || hi <= j || hi <= lo
  {
    if j < hi && lo < j + 4 && lo < hi {
      var k := if lo < j then j else lo;
      OccursAtByte(s, BLANK_LINE, j, k - j);
    }
  }

  /** Replacing a stretch free of line ends by another of the same length moves no blank line. */
  lemma SameBlankLine(s: seq<byte>, t: seq<byte>, lo: nat, hi: nat)
    requires lo <= hi <= |s| == |t|
    requires s[..lo] == t[..lo] && s[hi..] == t[hi..]
    requires NoLineEnd(s, lo, hi) && NoLineEnd(t, lo, hi)
    ensures Find(s, BLANK_LINE) == Find(t, BLANK_LINE)
  {
    forall j: nat | j + 4 <= |s|
      ensures OccursAt(s, BLANK_LINE, j) == OccursAt(t, BLANK_LINE, j)
    {
      SameOccurrence(s, t, lo, hi, j);
    }
  }

  lemma SameOccurrence(s: seq<byte>, t: seq<byte>, lo: nat, hi: nat, j: nat)
    requires lo <= hi <= |s| == |t| && j + 4 <= |s|
    requires s[..lo] == t[..lo] && s[hi..] == t[hi..]
    requires NoLineEnd(s, lo, hi) && NoLineEnd(t, lo, hi)
    ensures OccursAt(s, BLANK_LINE, j) == OccursAt(t, BLANK_LINE, j)
  {
    if j + 4 <= lo || hi <= j || lo == hi {
      forall k | j <= k < j + 4 ensures s[k] == t[k] {
        if k < lo {
          assert s[k] == s[..lo][k];
        } else {
          assert s[k] == s[hi..][k - hi] && t[k] == t[hi..][k - hi];
        }
      }
      OccursAtSame(s, t, BLANK_LINE, j);
    } else {
      if OccursAt(s, BLANK_LINE, j) { BlankNeedsLineEnds(s, lo, hi, j); }
      if OccursAt(t, BLANK_LINE, j) { BlankNeedsLineEnds(t, lo, hi, j); }
    }
  }

  // Compiled offsets in terms of the wire text

  /** Where the length field stands in a frame. */
  function FieldAt(b: nat, c: nat, encoded: nat): int {
    if c < b then c else c - 8 + encoded
  }

  /** Substituting the field means patching it where the frame has it. */
  lemma FieldIsPatch(wire: seq<byte>, b: nat, c: nat, enc: seq<byte>, field: seq<byte>)
    requires Placed(wire, b, c) && |field| == 12
    ensures var t, off := Substitute(wire, b, c, enc, wire[c..c + 12]), FieldAt(b, c, |enc|);
            0 <= off && off + 12 <= |t| && Substitute(wire, b, c, enc, field) == Patch(t, off, field)
            && t[off..off + 12] == wire[c..c + 12]
  {
    var was := wire[c..c + 12];
    if c < b {
      var x, y := wire[c + 12..b], wire[b + 8..];
      Assoc4(wire[..c] + was, x, enc, y);
      Assoc4(wire[..c] + field, x, enc, y);
      PatchMiddle(wire[..c], was, x + enc + y, field);
    } else {
      PatchMiddle(wire[..b] + enc + wire[b + 8..c], was, wire[c + 12..], field);
    }
  }

  lemma PatchMiddle(pre: seq<byte>, was: seq<byte>, post: seq<byte>, field: seq<byte>)
    requires |was| == |field|
    ensures var t := pre + was + post;
            Patch(t, |pre|, field) == pre + field + post && t[|pre|..|pre| + |was|] == was
  {
  }

  lemma SliceNoLineEnd(s: seq<byte>, i: nat, t: seq<byte>, j: nat, n: nat)
    requires i + n <= |s| && j + n <= |t| && s[i..i + n] == t[j..j + n]
    requires NoLineEnd(s, i, i + n)
    ensures NoLineEnd(t, j, j + n)
  {
    forall k | j <= k < j + n ensures t[k] == s[k - j + i] {
      assert t[j..j + n][k - j] == s[i..i + n][k - j];
    }
  }

  /** The reference frame as a patch of the frame whose length field is still the sentinel. */
  lemma RenderIsPatch(wire: seq<byte>, b: nat, c: nat, enc: seq<byte>, t: seq<byte>)
    requires Placed(wire, b, c) && |wire| + |enc| < FIELD_LIMIT
    requires t == Substitute(wire, b, c, enc, wire[c..c + 12])
    ensures var off, n := FieldAt(b, c, |enc|), BodyLength(t);
            && |Dec(n)| <= 12 && 0 <= off && off + 12 <= |t|
            && t[off..off + 12] == wire[c..c + 12]
            && Render(wire, b, c, enc) == Patch(t, off, Field(n, 12))
  {
    ShortNumeral(BodyLength(t));
    FieldIsPatch(wire, b, c, enc, Field(BodyLength(t), 12));
  }

  lemma SpliceIsPatch(lay: Layout, enc: seq<byte>, off: nat)
    requires lay.Valid() && lay.clOff == Some(off) && lay.clWidth == 12 && |enc| <= lay.bodyMax
    ensures var raw := Spliced(lay, enc);
            var n := WrappingSub(|raw|, lay.httpBodyStart);
            SpliceEncoded(lay, enc).Ok? <==> |Dec(n)| <= 12 && off + 12 <= |raw|
    ensures SpliceEncoded(lay, enc).Ok? ==>
              var raw := Spliced(lay, enc);
              SpliceEncoded(lay, enc).value == Patch(raw, off, Field(WrappingSub(|raw|, lay.httpBodyStart), 12))
  {
  }

  /** A length field followed by a blank line, apart from the body sentinel. */
  predicate WireOk(wire: seq<byte>, b: nat, c: nat) {
    && ((c + 16 <= b && b + 8 <= |wire|) || (b + 8 <= c && c + 16 <= |wire|))
    && NoLineEnd(wire, c, c + 12) && wire[c] == 60
    && wire[c + 12..c + 16] == BLANK_LINE
  }

  predicate OffsetsOk(b: nat, c: nat, lay: Layout) {
    && lay.bodyOff == b && lay.bodyMax >= 8 && lay.clWidth == 12
    && lay.clOff == Some(if c < b then c else c + (lay.bodyMax - 8))
    && Find(lay.buf, BLANK_LINE) == Some(lay.httpBodyStart - 4)
  }

  /** The buffer is the wire text with the body sentinel widened to a slot free of line ends. */
  predicate BufferOk(wire: seq<byte>, b: nat, buf: seq<byte>, max: nat) {
    && b + 8 <= |wire| && |buf| == |wire| - 8 + max < FIELD_LIMIT
    && buf[..b] == wire[..b] && buf[b + max..] == wire[b + 8..]
    && NoLineEnd(buf, b, b + max)
  }

  /** The compiled template against the wire text it came from. */
  predicate Compiled(wire: seq<byte>, b: nat, c: nat, lay: Layout) {
    WireOk(wire, b, c) && OffsetsOk(b, c, lay) && BufferOk(wire, b, lay.buf, lay.bodyMax)
  }

  /** The reference frame states its own body length. */
  lemma RenderStatesItsLength(wire: seq<byte>, b: nat, c: nat, enc: seq<byte>)
    requires Placed(wire, b, c) && |wire| + |enc| < FIELD_LIMIT && NoLineEnd(wire, c, c + 12)
    ensures var f := Render(wire, b, c, enc);
            |Dec(BodyLength(f))| <= 12 && f == Substitute(wire, b, c, enc, Field(BodyLength(f), 12))
  {
    var t := Substitute(wire, b, c, enc, wire[c..c + 12]);
    RenderIsPatch(wire, b, c, enc, t);
    var n, off := BodyLength(t), FieldAt(b, c, |enc|);
    SliceNoLineEnd(wire, c, t, off, 12);
    FieldNoLineEnd(n);
    PatchKeepsBlankLine(t, off, Field(n, 12));
    assert BodyLength(Patch(t, off, Field(n, 12))) == n;
  }

  lemma {:induction false} FieldNoLineEnd(n: nat)
    requires |Dec(n)| <= 12
    ensures NoLineEnd(Field(n, 12), 0, 12)
  {
  }

  lemma PatchKeepsBlankLine(t: seq<byte>, off: nat, field: seq<byte>)
    requires off + |field| <= |t|
    requires NoLineEnd(t, off, off + |field|) && NoLineEnd(field, 0, |field|)
    ensures Find(Patch(t, off, field), BLANK_LINE) == Find(t, BLANK_LINE)
  {
    var f := Patch(t, off, field);
    forall k | off <= k < off + |field| ensures f[k] == field[k - off] {}
    SameBlankLine(t, f, off, off + |field|);
  }

  /** Splicing leaves the wire text with the body sentinel replaced and the length field untouched. */
  lemma RawFrame(wire: seq<byte>, b: nat, c: nat, lay: Layout, enc: seq<byte>)
    requires Compiled(wire, b, c, lay)
    ensures Spliced(lay, enc) == Substitute(wire, b, c, enc, wire[c..c + 12])
  {
    if c < b {
      SplitThree(wire, 0, c, b);
    } else {
      SplitThree(wire, b + 8, c, |wire|);
      assert wire[b + 8..] == wire[b + 8..|wire|] && wire[c + 12..] == wire[c + 12..|wire|];
      Assoc4(wire[..b] + enc, wire[b + 8..c], wire[c..c + 12], wire[c + 12..]);
    }
  }

  lemma SplitThree(s: seq<byte>, i: nat, j: nat, n: nat)
    requires i <= j && j + 12 <= n <= |s|
    ensures s[i..n] == s[i..j] + s[j..j + 12] + s[j + 12..n]
  {
  }

  lemma SharedPrefix(s: seq<byte>, t: seq<byte>, n: nat)
    requires n <= |s| && n <= |t| && s[..n] == t[..n]
    requires Find(s[..n], BLANK_LINE).Some?
    ensures Find(s, BLANK_LINE) == Find(t, BLANK_LINE)
  {
    FindExtend(s[..n], s[n..], BLANK_LINE);
    FindExtend(s[..n], t[n..], BLANK_LINE);
    assert s == s[..n] + s[n..];
    assert t == s[..n] + t[n..];
  }

  lemma SplicedShape(lay: Layout, enc: seq<byte>)
    requires lay.Valid()
    ensures var raw, b := Spliced(lay, enc), lay.bodyOff;
            && |raw| == |lay.buf| - lay.bodyMax + |enc|
            && raw[..b] == lay.buf[..b] && raw[b + |enc|..] == lay.buf[b + lay.bodyMax..]
            && forall k :: b <= k < b + |enc| ==> raw[k] == enc[k - b]
  {
  }

  /** Length field before the body slot, or a slot filled to the last byte: the compiled header end is the frame's. */
  lemma HeaderEndAgrees(wire: seq<byte>, b: nat, c: nat, lay: Layout, enc: seq<byte>)
    requires Compiled(wire, b, c, lay) && NoLineEnd(enc, 0, |enc|)
    requires c < b || |enc| == lay.bodyMax
    ensures Find(Spliced(lay, enc), BLANK_LINE) == Some(lay.httpBodyStart - 4)
  {
    SplicedShape(lay, enc);
    HeaderEndKept(wire, b, c, lay.buf, lay.bodyMax, Spliced(lay, enc), enc);
  }

  lemma HeaderEndKept(wire: seq<byte>, b: nat, c: nat, buf: seq<byte>, max: nat, raw: seq<byte>, enc: seq<byte>)
    requires WireOk(wire, b, c) && BufferOk(wire, b, buf, max) && NoLineEnd(enc, 0, |enc|)
    requires |raw| == |buf| - max + |enc| && raw[..b] == buf[..b] && raw[b + |enc|..] == buf[b + max..]
    requires forall k :: b <= k < b + |enc| ==> raw[k] == enc[k - b]
    requires c < b || |enc| == max
    ensures Find(raw, BLANK_LINE) == Find(buf, BLANK_LINE)
  {
    if c < b {
      BlankInPrefix(raw, wire, b, c + 12);
      SharedPrefix(raw, buf, b);
    } else {
      SameBlankLine(raw, buf, b, b + max);
    }
  }

  lemma BlankInPrefix(s: seq<byte>, wire: seq<byte>, b: nat, k: nat)
    requires k + 4 <= b <= |s| && b <= |wire| && s[..b] == wire[..b] && wire[k..k + 4] == BLANK_LINE
    ensures Find(s[..b], BLANK_LINE).Some?
  {
    assert wire[..b][k..k + 4] == BLANK_LINE;
    assert OccursAt(s[..b], BLANK_LINE, k);
  }

  lemma LengthFromHeaderEnd(frame: seq<byte>, start: nat)
    requires Find(frame, BLANK_LINE) == Some(start - 4) && |frame| < U64
    ensures start <= |frame| && WrappingSub(|frame|, start) == BodyLength(frame)
  {
  }

  lemma SpliceRenders(wire: seq<byte>, b: nat, c: nat, lay: Layout, enc: seq<byte>)
    requires Compiled(wire, b, c, lay) && |wire| + lay.bodyMax < FIELD_LIMIT
    requires |enc| <= lay.bodyMax && NoLineEnd(enc, 0, |enc|)
    requires c < b || |enc| == lay.bodyMax
    ensures SpliceEncoded(lay, enc) == Ok(Render(wire, b, c, enc))
  {
    var raw, off := Spliced(lay, enc), lay.clOff.value;
    assert off == FieldAt(b, c, |enc|);
    RawFrame(wire, b, c, lay, enc);
    RenderIsPatch(wire, b, c, enc, raw);
    HeaderEndAgrees(wire, b, c, lay, enc);
    SplicePatches(lay, enc, off);
  }

  lemma SplicePatches(lay: Layout, enc: seq<byte>, off: nat)
    requires lay.Valid() && lay.clOff == Some(off) && lay.clWidth == 12 && |enc| <= lay.bodyMax
    requires Find(Spliced(lay, enc), BLANK_LINE) == Some(lay.httpBodyStart - 4) && |Spliced(lay, enc)| < U64
    requires |Dec(BodyLength(Spliced(lay, enc)))| <= 12 && off + 12 <= |Spliced(lay, enc)|
    ensures SpliceEncoded(lay, enc) == Ok(Patch(Spliced(lay, enc), off, Field(BodyLength(Spliced(lay, enc)), 12)))
  {
    LengthFromHeaderEnd(Spliced(lay, enc), lay.httpBodyStart);
    SpliceIsPatch(lay, enc, off);
  }

  /** A body sentinel ahead of the length field in a slot that is not full: the field is patched past its place. */
  lemma MisplacedPatch(wire: seq<byte>, b: nat, c: nat, lay: Layout, enc: seq<byte>)
    requires Compiled(wire, b, c, lay) && |wire| + lay.bodyMax < FIELD_LIMIT
    requires b < c && |enc| < lay.bodyMax
    ensures SpliceEncoded(lay, enc) != Ok(Render(wire, b, c, enc))
  {
    var raw, off, at := Spliced(lay, enc), FieldAt(b, c, |enc|), lay.clOff.value;
    RawFrame(wire, b, c, lay, enc);
    RenderIsPatch(wire, b, c, enc, raw);
    FirstOfSlice(raw, off, wire, c, 12);
    SpliceIsPatch(lay, enc, at);
    if SpliceEncoded(lay, enc).Ok? {
      PatchesDiffer(raw, off, Field(BodyLength(raw), 12), at, Field(WrappingSub(|raw|, lay.httpBodyStart), 12));
    }
  }

  lemma FirstOfSlice(s: seq<byte>, i: nat, t: seq<byte>, j: nat, n: nat)
    requires 0 < n && i + n <= |s| && j + n <= |t| && s[i..i + n] == t[j..j + n]
    ensures s[i] == t[j]
  {
    assert s[i..i + n][0] == t[j..j + n][0];
  }

  lemma PatchesDiffer(s: seq<byte>, i: nat, f: seq<byte>, j: nat, g: seq<byte>)
    requires |f| > 0 && i < j && i + |f| <= |s| && j + |g| <= |s|
    requires f[0] != s[i]
    ensures Patch(s, i, f) != Patch(s, j, g)
  {
    assert Patch(s, i, f)[i] == f[0];
    assert Patch(s, j, g)[i] == s[i];
  }

  // What callers of the builder get

  lemma BodyBytes(wire: seq<byte>, b: nat)
    requires OccursAt(wire, BODY_SENTINEL, b)
    ensures wire[b] == wire[b + 1] == 60 && wire[b + 2] == 66
    ensures forall j :: b + 2 <= j < b + 8 ==> wire[j] != 60
  {
    forall j | b <= j < b + 8 ensures wire[j] == BODY_SENTINEL[j - b] { OccursAtByte(wire, BODY_SENTINEL, b, j - b); }
    assert wire[b + 1] == BODY_SENTINEL[1] && wire[b + 2] == BODY_SENTINEL[2];
  }

  lemma LengthBytes(wire: seq<byte>, c: nat)
    requires OccursAt(wire, CL_SENTINEL, c)
    ensures wire[c] == wire[c + 1] == 60 && wire[c + 2] == 67
    ensures forall j :: c + 2 <= j < c + 12 ==> wire[j] != 60
  {
    forall j | c <= j < c + 12 ensures wire[j] == CL_SENTINEL[j - c] { OccursAtByte(wire, CL_SENTINEL, c, j - c); }
    assert wire[c + 1] == CL_SENTINEL[1] && wire[c + 2] == CL_SENTINEL[2];
  }

  /** The two sentinels can never overlap. */
  lemma SentinelsApart(wire: seq<byte>, b: nat, c: nat)
    requires OccursAt(wire, BODY_SENTINEL, b) && OccursAt(wire, CL_SENTINEL, c)
    ensures Placed(wire, b, c)
  {
    BodyBytes(wire, b);
    LengthBytes(wire, c);
  }

  lemma BuilderWire(d: EnvelopeSpecBuilder)
    ensures var c := |Unlines(HeadLines(d))| + 16;
            && OccursAt(Wire(d), CL_SENTINEL, c)
            && c + 16 + |d.bodyTpl| == |Wire(d)|
            && Wire(d)[c + 12..c + 16] == BLANK_LINE
            && Wire(d)[c + 16..] == d.bodyTpl
  {
    var c := |Unlines(HeadLines(d))| + 16;
    var pre := Unlines(HeadLines(d)) + Ascii("Content-Length: ");
    assert Wire(d) == pre + CL_SENTINEL + BLANK_LINE + d.bodyTpl;
    assert Wire(d)[c..c + 12] == CL_SENTINEL;
  }

  lemma FieldText(wire: seq<byte>, c: nat)
    requires OccursAt(wire, CL_SENTINEL, c)
    ensures NoLineEnd(wire, c, c + 12) && wire[c] == 60
  {
    forall k | c <= k < c + 12 ensures wire[k] == CL_SENTINEL[k - c] { OccursAtByte(wire, CL_SENTINEL, c, k - c); }
  }

  lemma BodyClearOfBlank(wire: seq<byte>, b: nat, c: nat)
    requires OccursAt(wire, BODY_SENTINEL, b)
    requires c + 4 <= |wire| && wire[c..c + 4] == BLANK_LINE
    ensures b < c || c + 4 <= b
  {
    OccursAtByte(wire, BODY_SENTINEL, b, 0);
    forall k | c <= k < c + 4 ensures wire[k] == BLANK_LINE[k - c] {
      assert wire[k] == wire[c..c + 4][k - c];
    }
  }

  /** In a builder's wire text the length field is the builder's own and a blank line follows it. */
  lemma BuilderPlaces(d: EnvelopeSpecBuilder, b: nat, c: nat)
    requires UniqueAt(Wire(d), BODY_SENTINEL, b) && UniqueAt(Wire(d), CL_SENTINEL, c)
    ensures var wire := Wire(d);
            c == |Unlines(HeadLines(d))| + 16 && WireOk(wire, b, c)
  {
    var wire := Wire(d);
    BuilderWire(d);
    SentinelsApart(wire, b, c);
    FieldText(wire, c);
    BodyClearOfBlank(wire, b, c + 12);
  }

  lemma PaddedShape(spec: EnvelopeSpec, b: nat)
    requires spec.body.sentinel == BODY_SENTINEL && spec.body.maxLen >= 8
    requires OccursAt(spec.bytes, BODY_SENTINEL, b)
    ensures var buf, max := Padded(spec, b), spec.body.maxLen;
            && |buf| == |spec.bytes| - 8 + max
            && buf[..b] == spec.bytes[..b] && buf[b + max..] == spec.bytes[b + 8..]
            && NoLineEnd(buf, b, b + max)
  {
    if spec.body.maxLen == 8 {
      forall k | b <= k < b + 8 ensures spec.bytes[k] == BODY_SENTINEL[k - b] {
        OccursAtByte(spec.bytes, BODY_SENTINEL, b, k - b);
      }
    }
  }

  lemma BuilderCompiled(d: EnvelopeSpecBuilder, lay: Layout, b: nat, c: nat)
    requires UniqueAt(Wire(d), BODY_SENTINEL, b) && UniqueAt(Wire(d), CL_SENTINEL, c)
    requires LayoutOf(SpecOf(d), lay) && FitsField(SpecOf(d))
    ensures Compiled(Wire(d), b, c, lay) && lay.bodyMax == d.maxBody
  {
    BuilderPlaces(d, b, c);
    LayoutPlaces(SpecOf(d), lay, b, c);
    LayoutBuffer(SpecOf(d), lay, b);
  }

  lemma LayoutPlaces(spec: EnvelopeSpec, lay: Layout, b: nat, c: nat)
    requires spec.body.sentinel == BODY_SENTINEL && spec.contentLength == Some(ContentLengthSpec(CL_SENTINEL, CL_WIDTH))
    requires UniqueAt(spec.bytes, BODY_SENTINEL, b) && UniqueAt(spec.bytes, CL_SENTINEL, c)
    requires WireOk(spec.bytes, b, c) && LayoutOf(spec, lay)
    ensures OffsetsOk(b, c, lay) && lay.bodyMax == spec.body.maxLen
  {
  }

  lemma LayoutBuffer(spec: EnvelopeSpec, lay: Layout, b: nat)
    requires spec.body.sentinel == BODY_SENTINEL && UniqueAt(spec.bytes, BODY_SENTINEL, b)
    requires LayoutOf(spec, lay) && FitsField(spec)
    ensures BufferOk(spec.bytes, b, lay.buf, lay.bodyMax)
  {
    assert lay.bodyOff == b;
    PaddedShape(spec, b);
  }

  /** `compile` accepts a builder spec exactly when the slot holds the sentinel and each sentinel occurs once. */
  lemma BuilderCompiles(d: EnvelopeSpecBuilder)
    ensures Compilable(SpecOf(d)) <==>
              && d.maxBody >= 8
              && (exists b: nat :: UniqueAt(Wire(d), BODY_SENTINEL, b))
              && (exists c: nat :: UniqueAt(Wire(d), CL_SENTINEL, c))
  {
    forall b: nat, c: nat | d.maxBody >= 8
                         && UniqueAt(Wire(d), BODY_SENTINEL, b) && UniqueAt(Wire(d), CL_SENTINEL, c)
      ensures Find(Padded(SpecOf(d), b), BLANK_LINE).Some?
    {
      BuilderPlaces(d, b, c);
      PaddedShape(SpecOf(d), b);
      BlankLineSurvives(Wire(d), b, c, Padded(SpecOf(d), b), d.maxBody);
    }
  }

  lemma BlankLineSurvives(wire: seq<byte>, b: nat, c: nat, buf: seq<byte>, max: nat)
    requires (c + 16 <= b && b + 8 <= |wire|) || (b + 8 <= c && c + 16 <= |wire|)
    requires wire[c + 12..c + 16] == BLANK_LINE
    requires |buf| == |wire| - 8 + max && buf[..b] == wire[..b] && buf[b + max..] == wire[b + 8..]
    ensures Find(buf, BLANK_LINE).Some?
  {
    if c < b {
      assert buf[c + 12..c + 16] == buf[..b][c + 12..c + 16] == wire[c + 12..c + 16];
      assert OccursAt(buf, BLANK_LINE, c + 12);
    } else {
      var at := c + 4 + max;
      assert buf[at..at + 4] == buf[b + max..][c + 4 - b..c + 8 - b] == wire[c + 12..c + 16];
      assert OccursAt(buf, BLANK_LINE, at);
    }
  }

  /**
    For every builder whose envelope compiles and every transaction: an oversized
    one is refused, and any other yields the reference frame if and only if the
    body sentinel stands in the body template or the encoding fills the slot.
   */
  lemma {:induction false} SpliceIsSubstitution(d: EnvelopeSpecBuilder, lay: Layout, b: nat, c: nat, tx: seq<byte>)
    requires UniqueAt(Wire(d), BODY_SENTINEL, b) && UniqueAt(Wire(d), CL_SENTINEL, c)
    requires LayoutOf(SpecOf(d), lay) && lay.Valid() && FitsField(SpecOf(d))
    ensures Placed(Wire(d), b, c)
    ensures Base64.EncodedLen(|tx|) > d.maxBody ==>
              SpliceOf(lay, tx) == Err(BodyTooLarge(Base64.EncodedLen(|tx|), d.maxBody))
    ensures Base64.EncodedLen(|tx|) <= d.maxBody ==>
              (SpliceOf(lay, tx) == Ok(Render(Wire(d), b, c, Base64.Encode(tx))) <==>
               OccursAt(d.bodyTpl, BODY_SENTINEL, b - (c + 16)) || Base64.EncodedLen(|tx|) == d.maxBody)
  {
    BuilderCompiled(d, lay, b, c);
    InTemplate(d, b, c);
    if Base64.EncodedLen(|tx|) <= d.maxBody {
      if c < b || Base64.EncodedLen(|tx|) == d.maxBody {
        SpliceRenders(Wire(d), b, c, lay, Base64.Encode(tx));
      } else {
        MisplacedPatch(Wire(d), b, c, lay, Base64.Encode(tx));
      }
    }
  }

  lemma InTemplate(d: EnvelopeSpecBuilder, b: nat, c: nat)
    requires UniqueAt(Wire(d), BODY_SENTINEL, b) && UniqueAt(Wire(d), CL_SENTINEL, c)
    ensures c < b <==> OccursAt(d.bodyTpl, BODY_SENTINEL, b - (c + 16))
  {
    BuilderPlaces(d, b, c);
    BuilderWire(d);
    if c < b {
      assert d.bodyTpl[b - (c + 16)..b - (c + 16) + 8] == Wire(d)[b..b + 8];
    }
  }

  /** Within the template, splicing fails exactly on transactions whose base64 text exceeds the slot. */
  lemma SpliceFailsExactly(d: EnvelopeSpecBuilder, lay: Layout, b: nat, c: nat, tx: seq<byte>)
    requires UniqueAt(Wire(d), BODY_SENTINEL, b) && UniqueAt(Wire(d), CL_SENTINEL, c) && c < b
    requires LayoutOf(SpecOf(d), lay) && lay.Valid() && FitsField(SpecOf(d))
    ensures SpliceOf(lay, tx).Err? <==> (|tx| + 2) / 3 * 4 > d.maxBody
  {
    BuilderCompiled(d, lay, b, c);
    if Base64.EncodedLen(|tx|) <= d.maxBody {
      SpliceRenders(Wire(d), b, c, lay, Base64.Encode(tx));
    }
  }

  const PRESET_MAX_BODY: nat := 1644

  /** The preset slot is the smallest one that admits every transaction a job can carry. */
  lemma PresetIsLeast(slot: nat)
    ensures slot >= PRESET_MAX_BODY <==> forall n: nat :: n <= MAX_TX ==> Base64.EncodedLen(n) <= slot
  {
    assert Base64.EncodedLen(MAX_TX) == PRESET_MAX_BODY;
    forall n: nat | n <= MAX_TX ensures Base64.EncodedLen(n) <= PRESET_MAX_BODY {
      assert (n + 2) / 3 <= (MAX_TX + 2) / 3;
    }
  }
}
