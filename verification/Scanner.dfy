/** What the JSON-RPC scanner reads, said by position in the text: the first quoted
    key, the first colon behind it, the white space behind that, and the string or
    number that follows. */
module Scanner {
  import opened Bytes
  import opened Decimal
  import opened Framing
  import opened Blanks
  import opened JsonRpc

  /** The first quoted `key` stands at `k`, and the first colon behind it at `c`. */
  predicate KeyAt(text: seq<byte>, key: seq<byte>, k: nat, c: nat) {
    && OccursAt(text, [34] + key + [34], k) && (forall j: nat :: j < k ==> !OccursAt(text, [34] + key + [34], j))
    && k + |key| + 2 <= c < |text| && text[c] == 58 && forall j :: k + |key| + 2 <= j < c ==> text[j] != 58
  }

  /** `r` is the text from the value of `key` on. */
  ghost predicate ValueText(text: seq<byte>, key: seq<byte>, r: seq<byte>) {
    exists k: nat, c: nat :: ValueFrom(text, key, k, c, r)
  }

  ghost predicate ValueFrom(text: seq<byte>, key: seq<byte>, k: nat, c: nat, r: seq<byte>) {
    KeyAt(text, key, k, c) && StartTrimmed(text[c + 1..], r)
  }

  lemma FirstByte(s: seq<byte>, b: byte, i: nat)
    ensures Find(s, [b]) == Some(i) <==> i < |s| && s[i] == b && forall j :: 0 <= j < i ==> s[j] != b
  {
    assert forall j: nat :: OccursAt(s, [b], j) <==> j < |s| && s[j] == b by {
      forall j: nat ensures OccursAt(s, [b], j) <==> j < |s| && s[j] == b {
        if j < |s| { assert s[j..j + 1] == [s[j]]; }
      }
    }
  }

  lemma KeyIs(text: seq<byte>, key: seq<byte>, k: nat, c: nat)
    requires Find(text, Quoted(key)) == Some(k)
    ensures AfterColon(text, key) == Some(c + 1) <==> KeyAt(text, key, k, c)
  {
    var start := k + |Quoted(key)|;
    var rest := text[start..];
    assert forall j :: start <= j < |text| ==> text[j] == rest[j - start];
    if start <= c { FirstByte(rest, COLON, c - start); }
  }

  lemma OneKey(text: seq<byte>, key: seq<byte>, k: nat, c: nat)
    requires KeyAt(text, key, k, c)
    ensures Find(text, Quoted(key)) == Some(k) && AfterColon(text, key) == Some(c + 1)
  {
    FindIs(text, Quoted(key), k);
    KeyIs(text, key, k, c);
  }

  lemma KeyFound(text: seq<byte>, key: seq<byte>) returns (k: nat, c: nat)
    requires AfterColon(text, key).Some?
    ensures KeyAt(text, key, k, c) && AfterColon(text, key) == Some(c + 1)
  {
    k, c := Find(text, Quoted(key)).value, AfterColon(text, key).value - 1;
    KeyIs(text, key, k, c);
  }

  lemma ValueRead(text: seq<byte>, key: seq<byte>, k: nat, c: nat, r: seq<byte>)
    requires ValueFrom(text, key, k, c, r)
    ensures AfterColon(text, key) == Some(c + 1) && TrimStart(text[c + 1..]) == r
  {
    OneKey(text, key, k, c);
    TrimStartIs(text[c + 1..], r);
  }

  lemma ValueFound(text: seq<byte>, key: seq<byte>)
    requires AfterColon(text, key).Some?
    ensures ValueText(text, key, TrimStart(text[AfterColon(text, key).value..]))
  {
    var k, c := KeyFound(text, key);
    var r := TrimStart(text[c + 1..]);
    TrimStartIs(text[c + 1..], r);
    assert ValueFrom(text, key, k, c, r);
  }

  lemma ValueTextIs(text: seq<byte>, key: seq<byte>, r: seq<byte>)
    ensures ValueText(text, key, r) <==>
              AfterColon(text, key).Some? && TrimStart(text[AfterColon(text, key).value..]) == r
  {
    if k: nat, c: nat :| ValueFrom(text, key, k, c, r) {
      ValueRead(text, key, k, c, r);
    }
    if AfterColon(text, key).Some? {
      ValueFound(text, key);
    }
  }

  // Strings

  /** The text starts with the string `s` in quotes, up to the next quote. */
  predicate StartsWith(r: seq<byte>, s: seq<byte>) {
    [34] + s + [34] <= r && forall j :: 0 <= j < |s| ==> s[j] != 34
  }

  ghost predicate HasString(text: seq<byte>, key: seq<byte>, s: seq<byte>) {
    exists r :: ValueText(text, key, r) && StartsWith(r, s)
  }

  lemma QuotedIs(r: seq<byte>, s: seq<byte>)
    ensures (QuotedAt(r).Some? && QuotedAt(r).value.0 == s) <==> StartsWith(r, s)
  {
    if r != [] && r[0] == QUOTE {
      var t := r[1..];
      FirstByte(t, QUOTE, |s|);
      if StartsWith(r, s) {
        var q := [34] + s + [34];
        assert forall j :: 0 <= j < |q| ==> q[j] == r[j];
        assert forall j :: 0 <= j < |s| ==> t[j] == s[j];
        assert r[1..1 + |s|] == s;
      }
      if QuotedAt(r).Some? && QuotedAt(r).value.0 == s {
        var q := [34] + s + [34];
        assert forall j :: 0 <= j < |t| ==> t[j] == r[j + 1];
        assert q == r[..|q|];
      }
    } else {
      assert ([34] + s + [34])[0] == 34;
    }
  }

  lemma StringRead(text: seq<byte>, key: seq<byte>, i: nat, s: seq<byte>)
    requires AfterColon(text, key) == Some(i)
    ensures (StringAfter(text, key).Some? && StringAfter(text, key).value.0 == s) <==>
              StartsWith(TrimStart(text[i..]), s)
  {
    QuotedIs(TrimStart(text[i..]), s);
  }

  lemma {:induction false} StringIs(body: seq<byte>, key: seq<byte>, s: seq<byte>)
    ensures JsonStringAfter(body, key) == Some(s) <==> Utf8(body) && HasString(body, key, s)
  {
    if r :| ValueText(body, key, r) && StartsWith(r, s) {
      ValueTextIs(body, key, r);
    }
    if AfterColon(body, key).Some? {
      var i := AfterColon(body, key).value;
      ValueTextIs(body, key, TrimStart(body[i..]));
      StringRead(body, key, i, s);
    }
  }

  // Numbers

  predicate DigitOrMinus(b: byte) { 48 <= b <= 57 || b == 45 }

  /** The longest run of digits and minus signs at the front is `num`. */
  predicate RunsWith(r: seq<byte>, num: seq<byte>) {
    && num <= r && (forall j :: 0 <= j < |num| ==> DigitOrMinus(num[j]))
    && (|num| < |r| ==> !DigitOrMinus(r[|num|]))
  }

  ghost predicate HasNumber(text: seq<byte>, key: seq<byte>, n: int) {
    exists r, num :: ValueText(text, key, r) && RunsWith(r, num) && Integer(num, n)
  }

  lemma {:induction false} RunIs(r: seq<byte>, num: seq<byte>)
    ensures RunsWith(r, num) <==> num == r[..NumberSpan(r)]
  {
    var n := NumberSpan(r);
    assert forall b :: NumberByte(b) <==> DigitOrMinus(b);
    if num <= r {
      assert forall j :: 0 <= j < |num| ==> num[j] == r[j];
      assert num == r[..|num|];
    }
  }

  lemma {:induction false} NumberIs(body: seq<byte>, key: seq<byte>, n: int)
    ensures JsonI64After(body, key) == Some(n) <==> Utf8(body) && HasNumber(body, key, n)
  {
    if HasNumber(body, key, n) {
      var r, num :| ValueText(body, key, r) && RunsWith(r, num) && Integer(num, n);
      ValueTextIs(body, key, r);
      RunIs(r, num);
      ParseI64Is(num, n);
    }
    if JsonI64After(body, key) == Some(n) {
      var r := TrimStart(body[AfterColon(body, key).value..]);
      ValueTextIs(body, key, r);
      RunIs(r, r[..NumberSpan(r)]);
      ParseI64Is(r[..NumberSpan(r)], n);
    }
  }

  // The codec

  const RESULT: seq<byte> := Ascii("result")
  const CODE: seq<byte> := Ascii("code")
  const MESSAGE: seq<byte> := Ascii("message")
  const ERROR: seq<byte> := Ascii("\"error\"")

  /** The string or number a body holds for `key`; only UTF-8 is read at all. */
  ghost predicate Holds(body: seq<byte>, key: seq<byte>, s: seq<byte>) { Utf8(body) && HasString(body, key, s) }

  ghost predicate HoldsNumber(body: seq<byte>, key: seq<byte>, n: int) { Utf8(body) && HasNumber(body, key, n) }

  lemma StringOrNone(body: seq<byte>, key: seq<byte>)
    ensures JsonStringAfter(body, key).Some? ==> Holds(body, key, JsonStringAfter(body, key).value)
    ensures forall s :: Holds(body, key, s) ==> JsonStringAfter(body, key) == Some(s)
  {
    forall s ensures JsonStringAfter(body, key) == Some(s) <==> Holds(body, key, s) {
      StringIs(body, key, s);
    }
  }

  lemma NumberOrNone(body: seq<byte>, key: seq<byte>)
    ensures JsonI64After(body, key).Some? ==> HoldsNumber(body, key, JsonI64After(body, key).value)
    ensures forall n :: HoldsNumber(body, key, n) ==> JsonI64After(body, key) == Some(n)
  {
    forall n ensures JsonI64After(body, key) == Some(n) <==> HoldsNumber(body, key, n) {
      NumberIs(body, key, n);
    }
  }

  ghost predicate IsError(body: seq<byte>) {
    && (forall s :: !Holds(body, RESULT, s))
    && exists i: nat :: OccursAt(body, ERROR, i)
  }

  /** The code the body holds, or 0 where it holds none. */
  ghost predicate CodeIs(body: seq<byte>, code: int) {
    || HoldsNumber(body, CODE, code)
    || (code == 0 && forall n :: !HoldsNumber(body, CODE, n))
  }

  /** The message the body holds, or the empty one where it holds none. */
  ghost predicate MessageIs(body: seq<byte>, message: seq<byte>) {
    || Holds(body, MESSAGE, message)
    || (message == [] && forall s :: !Holds(body, MESSAGE, s))
  }

  lemma CodeRead(body: seq<byte>, code: int)
    ensures CodeIs(body, code) <==>
              code == if JsonI64After(body, CODE).Some? then JsonI64After(body, CODE).value else 0
  {
    NumberOrNone(body, CODE);
  }

  lemma MessageRead(body: seq<byte>, message: seq<byte>)
    ensures MessageIs(body, message) <==>
              var m := JsonStringAfter(body, MESSAGE); message == if m.Some? then m.value else []
  {
    StringOrNone(body, MESSAGE);
  }

  lemma ErrorRead(body: seq<byte>)
    ensures IsError(body) <==>
              JsonStringAfter(body, RESULT).None? && Find(body, Quoted(Ascii("error"))).Some?
  {
    StringOrNone(body, RESULT);
    assert ERROR == Quoted(Ascii("error"));
  }

  /** Accepted with `s` exactly when the body is UTF-8 and its `result` is the string `s`. */
  lemma AcceptedIs(body: seq<byte>, s: seq<byte>)
    ensures Parse(body) == Accepted(s) <==> Holds(body, RESULT, s)
  {
    StringIs(body, RESULT, s);
  }

  /** Rejected exactly when there is no result string but the word `"error"`; and with the body's code and message. */
  lemma RejectedIs(body: seq<byte>, code: int, message: seq<byte>)
    ensures Parse(body) == Rejected(code, message) <==>
              IsError(body) && CodeIs(body, code) && MessageIs(body, message)
  {
    ErrorRead(body);
    CodeRead(body, code);
    MessageRead(body, message);
  }

  /** No response exactly when there is neither a result string nor the word `"error"`. */
  lemma NoResponseIs(body: seq<byte>)
    ensures Parse(body) == NoResponse <==>
              && (forall s :: !Holds(body, RESULT, s))
              && forall i: nat :: !OccursAt(body, ERROR, i)
  {
    ErrorRead(body);
    StringOrNone(body, RESULT);
  }
}
