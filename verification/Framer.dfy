/** What the response framer accepts, said by position in the text: where the head
    ends, which line states the length, what number it states, and which bytes are
    then the body. */
module Framer {
  import opened Bytes
  import opened Decimal
  import opened Framing
  import opened Blanks

  // Lines

  predicate LineStart(text: seq<byte>, i: nat) { i < |text| && (i == 0 || text[i - 1] == 10) }

  /** The line that starts at `i` runs up to `f`: a line feed or the end of the text. */
  predicate LineAt(text: seq<byte>, i: nat, f: nat) {
    i <= f <= |text| && (f < |text| ==> text[f] == 10) && forall k :: i <= k < f ==> text[k] != 10
  }

  /** Where its contents stop: a carriage return in front of the line feed is not part of them. */
  function LineStop(text: seq<byte>, i: nat, f: nat): (e: nat)
    requires LineAt(text, i, f)
    ensures i <= e <= f
  {
    if f < |text| && f > i && text[f - 1] == 13 then f - 1 else f
  }

  const SMALL: seq<byte> := Ascii("content-length:")
  const CAPITAL: seq<byte> := Ascii("CONTENT-LENGTH:")

  /** The field name and its colon, in any mixture of small and capital letters. */
  predicate IsName(w: seq<byte>) {
    |w| == 15 && forall k :: 0 <= k < 15 ==> w[k] == SMALL[k] || w[k] == CAPITAL[k]
  }

  predicate Spells(text: seq<byte>, i: nat) { i + 15 <= |text| && IsName(text[i..i + 15]) }

  predicate FirstField(text: seq<byte>, i: nat) {
    LineStart(text, i) && Spells(text, i) && forall j: nat :: j < i && LineStart(text, j) ==> !Spells(text, j)
  }

  /** `v` is the rest of the first line that starts with the field name; the line starts at `i`. */
  predicate FieldAt(text: seq<byte>, i: nat, f: nat, v: seq<byte>) {
    && FirstField(text, i) && LineAt(text, i, f)
    && i + 15 <= LineStop(text, i, f) && v == text[i + 15..LineStop(text, i, f)]
  }

  ghost predicate LengthField(text: seq<byte>, v: seq<byte>) {
    exists i: nat, f: nat :: FieldAt(text, i, f, v)
  }

  lemma NextLineIs(text: seq<byte>) returns (f: nat)
    requires text != []
    ensures LineAt(text, 0, f) && NextLine(text).0 == text[..LineStop(text, 0, f)]
    ensures NextLine(text).1 == if f < |text| then text[f + 1..] else []
  {
    f := if Find(text, [LF]).Some? then Find(text, [LF]).value else |text|;
    forall k | 0 <= k < f ensures text[k] != 10 {
      if text[k] == 10 { assert text[k..k + 1] == [LF]; assert OccursAt(text, [LF], k); }
    }
    if f < |text| { assert text[f..f + 1][0] == LF; }
  }

  lemma PrefixBytes(k: nat)
    requires k < 15
    ensures PREFIX[k] == SMALL[k]
    ensures CAPITAL[k] == if 97 <= PREFIX[k] < 123 then PREFIX[k] - 32 else PREFIX[k]
    ensures 45 <= CAPITAL[k] && 45 <= PREFIX[k] && (PREFIX[k] < 65 || 97 <= PREFIX[k] < 123)
  {
    assert k == 0 || k == 1 || k == 2 || k == 3 || k == 4 || k == 5 || k == 6 || k == 7 || k == 8 || k == 9
           || k == 10 || k == 11 || k == 12 || k == 13 || k == 14;
  }

  lemma LetterMatches(b: byte, k: nat)
    requires k < 15
    ensures Lower(b) == PREFIX[k] <==> b == SMALL[k] || b == CAPITAL[k]
    ensures Lower(b) == PREFIX[k] ==> b != 10 && b != 13
  {
    PrefixBytes(k);
  }

  lemma NameIs(w: seq<byte>)
    requires |w| == 15
    ensures IsName(w) <==> IsContentLength(w)
    ensures IsName(w) ==> forall k :: 0 <= k < 15 ==> w[k] != 10 && w[k] != 13
  {
    forall k | 0 <= k < 15
      ensures Lower(w[k]) == PREFIX[k] <==> w[k] == SMALL[k] || w[k] == CAPITAL[k]
      ensures Lower(w[k]) == PREFIX[k] ==> w[k] != 10 && w[k] != 13
    {
      LetterMatches(w[k], k);
    }
  }

  lemma NameFirst(line: seq<byte>)
    ensures IsContentLength(line) <==> |line| >= 15 && IsContentLength(line[..15])
  {
  }

  /** The first line is a length line exactly when the text starts with the field name. */
  lemma FirstLine(text: seq<byte>, f: nat)
    requires LineAt(text, 0, f)
    ensures IsContentLength(text[..LineStop(text, 0, f)]) <==> Spells(text, 0)
    ensures Spells(text, 0) ==> 15 <= LineStop(text, 0, f)
  {
    var e := LineStop(text, 0, f);
    NameFirst(text[..e]);
    if |text| >= 15 {
      var w := text[0..15];
      NameIs(w);
      assert forall k :: 0 <= k < 15 ==> w[k] == text[k];
      if e >= 15 { assert text[..e][..15] == w; }
    }
  }

  // The search

  lemma SliceInside(text: seq<byte>, n: nat, i: nat, e: nat)
    requires n <= |text| && i <= e <= |text| - n
    ensures text[n..][i..e] == text[n + i..n + e]
  {
  }

  /** Behind the first line, positions only move. */
  lemma Shift(text: seq<byte>, n: nat, i: nat, j: nat)
    requires 0 < n <= |text| && text[n - 1] == 10 && j == n + i
    ensures LineStart(text, j) <==> LineStart(text[n..], i)
    ensures Spells(text, j) <==> Spells(text[n..], i)
  {
    if j + 15 <= |text| { SliceInside(text, n, i, i + 15); }
    if 0 < i < |text[n..]| { assert text[n..][i - 1] == text[j - 1]; }
  }

  lemma ShiftLine(text: seq<byte>, n: nat, i: nat, f: nat)
    requires n <= |text| && LineAt(text[n..], i, f)
    ensures LineAt(text, n + i, n + f) && LineStop(text, n + i, n + f) == n + LineStop(text[n..], i, f)
  {
    var rest := text[n..];
    forall k | n + i <= k < n + f ensures text[k] != 10 {
      assert text[k] == rest[k - n];
    }
    if f < |rest| { assert rest[f] == text[n + f]; }
    if f > i { assert rest[f - 1] == text[n + f - 1]; }
  }

  /** The first line and its end take up the first `n` bytes. */
  predicate FirstTakes(text: seq<byte>, n: nat) {
    0 < n <= |text| && (n < |text| ==> text[n - 1] == 10) && forall k :: 0 <= k < n - 1 ==> text[k] != 10
  }

  /** No other line starts inside the first one. */
  lemma LaterLine(text: seq<byte>, n: nat, j: nat)
    requires FirstTakes(text, n) && LineStart(text, j) && 0 < j
    ensures n <= j && text[n - 1] == 10
  {
  }

  /** The search takes the first line or goes on behind it. */
  lemma SearchStep(text: seq<byte>) returns (n: nat)
    requires text != []
    ensures FirstTakes(text, n)
    ensures Spells(text, 0) ==> FieldValue(text).Some? && LengthField(text, FieldValue(text).value)
    ensures !Spells(text, 0) ==> FieldValue(text) == FieldValue(text[n..])
  {
    var f := NextLineIs(text);
    n := if f < |text| then f + 1 else f;
    FirstLine(text, f);
    if Spells(text, 0) {
      var e := LineStop(text, 0, f);
      assert text[..e][15..] == text[15..e];
      assert FieldAt(text, 0, f, text[15..e]);
    } else if f == |text| {
      assert text[n..] == [];
    }
  }

  /** Without a length line nothing is found. */
  lemma {:induction false} NoField(text: seq<byte>, j: nat)
    requires FieldValue(text).None? && LineStart(text, j)
    ensures !Spells(text, j)
    decreases |text|
  {
    var n := SearchStep(text);
    if j > 0 {
      LaterLine(text, n, j);
      Shift(text, n, j - n, j);
      NoField(text[n..], j - n);
    }
  }

  lemma FieldLater(text: seq<byte>, n: nat, v: seq<byte>)
    requires FirstTakes(text, n) && !Spells(text, 0) && LengthField(text[n..], v)
    ensures LengthField(text, v)
  {
    var i: nat, f: nat :| FieldAt(text[n..], i, f, v);
    var e := LineStop(text[n..], i, f);
    FirstLater(text, n, i, n + i);
    ShiftLine(text, n, i, f);
    SliceInside(text, n, i + 15, e);
    assert FieldAt(text, n + i, n + f, v);
  }

  lemma FirstLater(text: seq<byte>, n: nat, i: nat, j: nat)
    requires FirstTakes(text, n) && !Spells(text, 0) && FirstField(text[n..], i) && j == n + i
    ensures FirstField(text, j)
  {
    Shift(text, n, i, j);
    forall k: nat | k < j && LineStart(text, k) ensures !Spells(text, k) {
      if k > 0 {
        LaterLine(text, n, k);
        Shift(text, n, k - n, k);
      }
    }
  }

  /** What is found is the value on the first length line. */
  lemma {:induction false} FieldFound(text: seq<byte>)
    requires FieldValue(text).Some?
    ensures LengthField(text, FieldValue(text).value)
    decreases |text|
  {
    var n := SearchStep(text);
    if !Spells(text, 0) {
      FieldFound(text[n..]);
      FieldLater(text, n, FieldValue(text).value);
    }
  }

  lemma LineIsOne(text: seq<byte>, i: nat, f: nat, g: nat)
    requires LineAt(text, i, f) && LineAt(text, i, g)
    ensures f == g
  {
  }

  lemma FieldIsOne(text: seq<byte>, u: seq<byte>, v: seq<byte>)
    requires LengthField(text, u) && LengthField(text, v)
    ensures u == v
  {
    var i: nat, f: nat :| FieldAt(text, i, f, u);
    var j: nat, g: nat :| FieldAt(text, j, g, v);
    assert i == j;
    LineIsOne(text, i, f, g);
  }

  /** The search finds the value on the first length line, if there is one. */
  lemma {:induction false} FieldValueIs(text: seq<byte>, v: seq<byte>)
    ensures FieldValue(text) == Some(v) <==> LengthField(text, v)
  {
    if FieldValue(text).Some? {
      FieldFound(text);
      if LengthField(text, v) { FieldIsOne(text, v, FieldValue(text).value); }
    } else if LengthField(text, v) {
      var i: nat, f: nat :| FieldAt(text, i, f, v);
      NoField(text, i);
    }
  }

  // Lengths

  /** The head is text, and its first length line states `n`, with white space around and zeros or a plus in front. */
  ghost predicate StatesLength(head: seq<byte>, n: nat) {
    && Utf8(head) && n < U64
    && exists v, w :: LengthField(head, v) && Trimmed(v, w)
                      && (Numeral(w, n) || (w != [] && w[0] == 43 && Numeral(w[1..], n)))
  }

  lemma ContentLengthIs(head: seq<byte>, n: nat)
    ensures ContentLength(head) == Some(n) <==> StatesLength(head, n)
  {
    if StatesLength(head, n) {
      var v, w :| LengthField(head, v) && Trimmed(v, w)
                  && (Numeral(w, n) || (w != [] && w[0] == 43 && Numeral(w[1..], n)));
      FieldValueIs(head, v);
      TrimIs(v, w);
      ParseUsizeIs(w, n);
    }
    if ContentLength(head) == Some(n) {
      var v := FieldValue(head).value;
      FieldValueIs(head, v);
      TrimIs(v, Trim(v));
      ParseUsizeIs(Trim(v), n);
    }
  }

  // Bodies

  predicate BlankLineAt(acc: seq<byte>, j: nat) { j + 4 <= |acc| && acc[j..j + 4] == [13, 10, 13, 10] }

  /** The head of the response: up to and including its first empty line. */
  predicate HeadEnd(acc: seq<byte>, e: nat) {
    4 <= e && BlankLineAt(acc, e - 4) && forall j: nat :: j < e - 4 ==> !BlankLineAt(acc, j)
  }

  /** `acc` starts with a whole response that carries `body`. */
  ghost predicate Framed(acc: seq<byte>, body: seq<byte>) {
    exists e: nat :: HeadEnd(acc, e) && StatesLength(acc[..e], |body|) && body <= acc[e..]
  }

  lemma HeadEndIs(acc: seq<byte>, e: nat)
    ensures HeadEnd(acc, e) <==> 4 <= e && Find(acc, BLANK_LINE) == Some(e - 4)
  {
    assert BLANK_LINE == [13, 10, 13, 10];
    assert forall j: nat :: BlankLineAt(acc, j) <==> OccursAt(acc, BLANK_LINE, j);
    if HeadEnd(acc, e) { FindIs(acc, BLANK_LINE, e - 4); }
  }

  lemma TakeInside(acc: seq<byte>, e: nat, n: nat)
    requires e + n <= |acc|
    ensures acc[e..e + n] == acc[e..][..n]
  {
  }

  lemma BodyAt(acc: seq<byte>, e: nat, body: seq<byte>)
    requires 4 <= e && Find(acc, BLANK_LINE) == Some(e - 4)
    ensures BodyIfComplete(acc) == Some(body) <==> ContentLength(acc[..e]) == Some(|body|) && body <= acc[e..]
  {
    var n := |body|;
    if e + n <= |acc| {
      TakeInside(acc, e, n);
      assert body <= acc[e..] <==> body == acc[e..][..n];
    }
  }

  /** The framer finds exactly the bodies of whole responses. */
  lemma FramedIs(acc: seq<byte>, body: seq<byte>)
    ensures BodyIfComplete(acc) == Some(body) <==> Framed(acc, body)
  {
    forall e: nat ensures HeadEnd(acc, e) <==> 4 <= e && Find(acc, BLANK_LINE) == Some(e - 4) {
      HeadEndIs(acc, e);
    }
    if Find(acc, BLANK_LINE).Some? {
      var e := Find(acc, BLANK_LINE).value + 4;
      assert HeadEnd(acc, e);
      BodyAt(acc, e, body);
      ContentLengthIs(acc[..e], |body|);
    }
  }

  /**
    One call of `ingest`: a body exactly when the bytes kept so far start with a
    whole response, and then nothing is kept, whatever followed it; otherwise all
    bytes are kept, and it is an error exactly when they are more than 65536.
   */
  lemma IngestIs(kept: seq<byte>, chunk: seq<byte>)
    ensures var acc, (o, left) := kept + chunk, Ingested(kept, chunk);
            && (forall body :: o == Ok(Some(body)) <==> Framed(acc, body))
            && (o == Ok(None) <==> |acc| <= 65536 && forall body :: !Framed(acc, body))
            && (o == Err(TooLarge) <==> |acc| > 65536 && forall body :: !Framed(acc, body))
            && left == if o.Ok? && o.value.Some? then [] else acc
  {
    forall body ensures BodyIfComplete(kept + chunk) == Some(body) <==> Framed(kept + chunk, body) {
      FramedIs(kept + chunk, body);
    }
  }
}
