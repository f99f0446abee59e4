/** The JSON-RPC scanner of response.rs: first-occurrence searches for a key, a
    colon and a value, and the codec that classifies a response body with them. */
module JsonRpc {
  import opened Bytes
  import opened Decimal
  import opened Framing

  const QUOTE: byte := 34
  const COLON: byte := 58
  const RESP_CAP: nat := 1024

  datatype OutcomeKind =
    | Accepted(signature: seq<byte>)
    | Rejected(code: int, message: seq<byte>)
    | NoResponse

  function Quoted(key: seq<byte>): seq<byte> { [QUOTE] + key + [QUOTE] }

  /** The index just after the first colon that follows the first quoted `key`. */
  function AfterColon(text: seq<byte>, key: seq<byte>): (r: Option<nat>)
    ensures r.Some? ==> r.value <= |text|
  {
    match Find(text, Quoted(key))
    case None => None
    case Some(k) =>
      var start := k + |Quoted(key)|;
      match Find(text[start..], [COLON])
      case None => None
      case Some(c) => Some(start + c + 1)
  }

  /** A string in double quotes: its contents and the index after its end. */
  function QuotedAt(s: seq<byte>): (r: Option<(seq<byte>, nat)>)
    ensures r.Some? ==> 2 <= r.value.1 <= |s|
  {
    if s == [] || s[0] != QUOTE then None
    else match Find(s[1..], [QUOTE])
         case None => None
         case Some(e) => Some((s[1..1 + e], e + 2))
  }

  /** The same after leading white space. */
  function StringAt(s: seq<byte>): (r: Option<(seq<byte>, nat)>)
    ensures r.Some? ==> r.value.1 <= |s|
  {
    match QuotedAt(TrimStart(s))
    case None => None
    case Some((text, end)) => Some((text, |s| - |TrimStart(s)| + end))
  }

  /** The string value of `key` and the index after its closing quote. */
  function StringAfter(text: seq<byte>, key: seq<byte>): (r: Option<(seq<byte>, nat)>)
    ensures r.Some? ==> r.value.1 <= |text|
  {
    StringFrom(text, AfterColon(text, key))
  }

  function StringFrom(text: seq<byte>, start: Option<nat>): (r: Option<(seq<byte>, nat)>)
    requires start.Some? ==> start.value <= |text|
    ensures r.Some? ==> r.value.1 <= |text|
  {
    match start
    case None => None
    case Some(i) =>
      match StringAt(text[i..])
      case None => None
      case Some((s, end)) => Some((s, i + end))
  }

  function JsonStringAfter(body: seq<byte>, key: seq<byte>): (r: Option<seq<byte>>)
  {
    if !Utf8(body) || StringAfter(body, key).None? then None
    else Some(StringAfter(body, key).value.0)
  }

  predicate NumberByte(b: byte) { IsDigit(b) || b == 45 }

  /** The longest prefix of digits and minus signs. */
  function NumberSpan(s: seq<byte>): (n: nat)
    ensures n <= |s|
    ensures forall i :: 0 <= i < n ==> NumberByte(s[i])
    ensures n < |s| ==> !NumberByte(s[n])
  {
    if s == [] || !NumberByte(s[0]) then 0 else 1 + NumberSpan(s[1..])
  }

  function JsonI64After(body: seq<byte>, key: seq<byte>): (r: Option<int>)
  {
    if !Utf8(body) || AfterColon(body, key).None? then None
    else
      var rest := TrimStart(body[AfterColon(body, key).value..]);
      ParseI64(rest[..NumberSpan(rest)])
  }

  function Parse(body: seq<byte>): (r: OutcomeKind)
  {
    var sig := JsonStringAfter(body, Ascii("result"));
    if sig.Some? then Accepted(sig.value)
    else if Find(body, Quoted(Ascii("error"))).Some? then
      var code := JsonI64After(body, Ascii("code"));
      var message := JsonStringAfter(body, Ascii("message"));
      Rejected(if code.Some? then code.value else 0, if message.Some? then message.value else [])
    else NoResponse
  }

  // Truncation

  /** A search in a prefix finds what the whole search finds, if that lies in the prefix. */
  lemma FindInPrefix(s: seq<byte>, needle: seq<byte>, n: nat)
    requires n <= |s|
    ensures Find(s[..n], needle)
         == if Find(s, needle).Some? && Find(s, needle).value + |needle| <= n then Find(s, needle) else None
  {
    forall j: nat | j + |needle| <= n ensures OccursAt(s[..n], needle, j) == OccursAt(s, needle, j) {
      OccursAtSame(s[..n], s, needle, j);
    }
  }

  lemma SlicePrefix(s: seq<byte>, i: nat, n: nat)
    requires i <= n <= |s|
    ensures s[i..][..n - i] == s[..n][i..]
  {
  }

  lemma SliceSlice(s: seq<byte>, k: nat, i: nat, n: nat)
    requires k <= |s| && i <= n <= |s| - k
    ensures s[k..][i..n] == s[k + i..k + n]
  {
  }

  lemma AfterColonInPrefix(text: seq<byte>, key: seq<byte>, n: nat)
    requires n <= |text|
    ensures AfterColon(text[..n], key)
         == if AfterColon(text, key).Some? && AfterColon(text, key).value <= n then AfterColon(text, key) else None
  {
    FindInPrefix(text, Quoted(key), n);
    var k := Find(text, Quoted(key));
    if k.Some? && k.value + |Quoted(key)| <= n {
      var start := k.value + |Quoted(key)|;
      FindInPrefix(text[start..], [COLON], n - start);
      SlicePrefix(text, start, n);
    }
  }

  lemma {:induction false} TrimStartShorter(s: seq<byte>)
    ensures |TrimStart(s)| <= |s| && TrimStart(s) == s[|s| - |TrimStart(s)|..]
    decreases |s|
  {
    if BlankFront(s) > 0 {
      TrimStartShorter(s[BlankFront(s)..]);
    }
  }

  /** Trimming a prefix: either the same bytes go, or no quoted string can follow. */
  lemma {:induction false} TrimStartOfPrefix(s: seq<byte>, n: nat)
    requires n <= |s|
    ensures var skip := |s| - |TrimStart(s)|;
            if skip < n then TrimStart(s[..n]) == s[skip..n]
            else TrimStart(s[..n]) == [] || TrimStart(s[..n])[0] != QUOTE
    decreases |s|
  {
    var k := BlankFront(s);
    BlankFrontOfPrefix(s, n);
    if 0 < k <= n {
      TrimStartOfPrefix(s[k..], n - k);
      SlicePrefix(s, k, n);
      var skip := |s[k..]| - |TrimStart(s[k..])|;
      if skip < n - k { SliceSlice(s, k, skip, n - k); }
    }
  }

  lemma BlankFrontOfPrefix(s: seq<byte>, n: nat)
    requires n <= |s|
    ensures BlankFront(s) <= n ==> BlankFront(s[..n]) == BlankFront(s)
    ensures BlankFront(s) > n ==> BlankFront(s[..n]) == 0 && (n > 0 ==> s[0] != QUOTE)
  {
  }

  lemma QuotedInPrefix(s: seq<byte>, n: nat)
    requires n <= |s|
    ensures QuotedAt(s[..n]) == if QuotedAt(s).Some? && QuotedAt(s).value.1 <= n then QuotedAt(s) else None
  {
    if n > 0 {
      var cut := s[..n];
      FindInPrefix(s[1..], [QUOTE], n - 1);
      SlicePrefix(s, 1, n);
      var e := Find(s[1..], [QUOTE]);
      if e.Some? && e.value + 1 <= n - 1 {
        assert cut[1..1 + e.value] == s[1..1 + e.value];
      }
    }
  }

  lemma StringAtInPrefix(s: seq<byte>, n: nat)
    requires n <= |s|
    ensures StringAt(s[..n])
         == if StringAt(s).Some? && StringAt(s).value.1 <= n then StringAt(s) else None
  {
    TrimStartShorter(s);
    TrimStartOfPrefix(s, n);
    var skip := |s| - |TrimStart(s)|;
    if skip < n {
      SliceTail(s, skip, n);
      QuotedInPrefix(TrimStart(s), n - skip);
    }
  }

  lemma SliceTail(s: seq<byte>, k: nat, n: nat)
    requires k <= n <= |s|
    ensures s[k..n] == s[k..][..n - k]
  {
  }

  lemma StringFromInPrefix(text: seq<byte>, i: nat, n: nat)
    requires i <= n <= |text|
    ensures StringFrom(text[..n], Some(i))
         == if StringFrom(text, Some(i)).Some? && StringFrom(text, Some(i)).value.1 <= n
            then StringFrom(text, Some(i)) else None
  {
    StringAtInPrefix(text[i..], n - i);
    SlicePrefix(text, i, n);
  }

  lemma StringAtLater(text: seq<byte>, i: nat)
    requires i <= |text|
    ensures StringFrom(text, Some(i)).Some? ==> StringFrom(text, Some(i)).value.1 > i
  {
  }

  lemma StringAfterInPrefix(text: seq<byte>, key: seq<byte>, n: nat)
    requires n <= |text|
    ensures StringAfter(text[..n], key)
         == if StringAfter(text, key).Some? && StringAfter(text, key).value.1 <= n then StringAfter(text, key) else None
  {
    AfterColonInPrefix(text, key, n);
    var i := AfterColon(text, key);
    if i.Some? {
      StringAtLater(text, i.value);
      if i.value <= n { StringFromInPrefix(text, i.value, n); }
    }
  }

  /**
    Cutting a body short can lose an acceptance but never invent or change one:
    the cut body is accepted exactly when the whole one is, the cut leaves valid
    UTF-8 and keeps the closing quote, and then with the same signature.
   */
  lemma {:induction false} TruncationKeepsSignature(body: seq<byte>, n: nat)
    requires Utf8(body) && n <= |body|
    ensures Parse(body[..n]).Accepted? <==>
              && Parse(body).Accepted? && Utf8(body[..n])
              && StringAfter(body, Ascii("result")).value.1 <= n
    ensures Parse(body[..n]).Accepted? ==> Parse(body[..n]) == Parse(body)
  {
    StringAfterInPrefix(body, Ascii("result"), n);
  }

  /** What the workers keep of a body. */
  function Capped(body: seq<byte>): (r: seq<byte>)
    ensures r <= body && |r| == if |body| <= RESP_CAP then |body| else RESP_CAP
  {
    if |body| <= RESP_CAP then body else body[..RESP_CAP]
  }

  /** An acceptance read off the kept bytes is the whole body's if and only if that body is UTF-8. */
  lemma {:induction false} CappedAcceptance(body: seq<byte>)
    ensures Parse(Capped(body)).Accepted? ==> (Parse(body) == Parse(Capped(body)) <==> Utf8(body))
  {
    if Utf8(body) {
      TruncationKeepsSignature(body, |Capped(body)|);
      assert Capped(body) == body[..|Capped(body)|];
    }
  }

  /** Without UTF-8 it can differ: a result in the kept bytes, an invalid byte after them. */
  lemma {:induction false} CutHidesInvalidText(sig: seq<byte>, pad: nat)
    requires Utf8(sig) && QUOTE !in sig && |ResultBody(sig)| + pad == RESP_CAP
    ensures var body := ResultBody(sig) + Spaces(pad) + [0xFF];
            Parse(Capped(body)) == Accepted(sig) && !Parse(body).Accepted?
  {
    var head, text := ResultBody(sig), ResultBody(sig) + Spaces(pad);
    var body := text + [0xFF];
    ResultRoundTrip(sig);
    ResultIsText(sig);
    Utf8Ascii(Spaces(pad));
    Utf8Concat(head, Spaces(pad));
    assert text[..|head|] == head;
    TruncationKeepsSignature(text, |head|);
    assert Capped(body) == body[..RESP_CAP] == text;
    if Utf8(body) {
      Utf8Rest(text, [0xFF]);
    }
  }

  // Canonical bodies (section 5 of the JSON-RPC 2.0 specification)

  const OPENING: seq<byte> := Ascii("{\"jsonrpc\":\"2.0\",")
  const ERROR_OPENING: seq<byte> := Ascii("{\"jsonrpc\":\"2.0\",\"error\":{")
  const ID: seq<byte> := Ascii(",\"id\":1}")

  function ResultBody(sig: seq<byte>): seq<byte> {
    OPENING + Quoted(Ascii("result")) + [COLON] + Quoted(sig) + ID
  }

  /** Everything before the message key. */
  function ErrorHead(code: int): seq<byte> {
    ERROR_OPENING + Quoted(Ascii("code")) + [COLON] + (DecI64(code) + [44])
  }

  function ErrorBody(code: int, message: seq<byte>): seq<byte> {
    ErrorHead(code) + Quoted(Ascii("message")) + [COLON] + Quoted(message) + ([125] + ID)
  }

  /** Everything from the message key on. */
  function ErrorRest(message: seq<byte>): seq<byte> {
    Quoted(Ascii("message")) + [COLON] + Quoted(message) + ([125] + ID)
  }

  lemma ErrorParts(code: int, message: seq<byte>)
    ensures ErrorBody(code, message) == ErrorHead(code) + ErrorRest(message)
  {
    Assoc4(ErrorHead(code), Quoted(Ascii("message")), [COLON], Quoted(message));
    Assoc(ErrorHead(code), Quoted(Ascii("message")) + [COLON] + Quoted(message), [125] + ID);
  }

  // Finding keys and values

  /** No quote in `s` is followed by the byte `c`, and `s` does not end in a quote. */
  predicate NoQuoteThen(s: seq<byte>, c: byte) {
    && (s != [] ==> s[|s| - 1] != QUOTE)
    && forall j :: 0 <= j < |s| - 1 && s[j] == QUOTE ==> s[j + 1] != c
  }

  lemma NoQuoteThenConcat(a: seq<byte>, b: seq<byte>, c: byte)
    requires NoQuoteThen(a, c) && NoQuoteThen(b, c)
    ensures NoQuoteThen(a + b, c)
  {
    var s := a + b;
    forall j | 0 <= j < |s| - 1 && s[j] == QUOTE ensures s[j + 1] != c {
      if j >= |a| { assert s[j] == b[j - |a|] && s[j + 1] == b[j - |a| + 1]; }
    }
  }

  lemma FirstKey(pre: seq<byte>, key: seq<byte>, post: seq<byte>)
    requires key != [] && NoQuoteThen(pre, key[0])
    ensures Find(pre + Quoted(key) + post, Quoted(key)) == Some(|pre|)
  {
    var text, q, k := pre + Quoted(key) + post, Quoted(key), |pre|;
    assert text[k..k + |q|] == q;
    forall j | 0 <= j < k ensures !OccursAt(text, q, j) {
      if OccursAt(text, q, j) {
        OccursAtByte(text, q, j, 0);
        OccursAtByte(text, q, j, 1);
      }
    }
    FindIs(text, q, k);
  }

  lemma KeyEnd(pre: seq<byte>, key: seq<byte>, value: seq<byte>)
    ensures var text, i := pre + Quoted(key) + [COLON] + value, |pre| + |key| + 2;
            text == pre + Quoted(key) + ([COLON] + value) && text[i..] == [COLON] + value && text[i + 1..] == value
  {
  }

  lemma ColonFirst(value: seq<byte>)
    ensures Find([COLON] + value, [COLON]) == Some(0)
  {
    var t := [COLON] + value;
    assert t[0..1] == [COLON];
    FindIs(t, [COLON], 0);
  }

  /** The value of the first `key` starts right after its colon. */
  lemma KeyValue(pre: seq<byte>, key: seq<byte>, value: seq<byte>)
    requires key != [] && NoQuoteThen(pre, key[0])
    ensures var text, i := pre + Quoted(key) + [COLON] + value, |pre| + |key| + 3;
            AfterColon(text, key) == Some(i) && text[i..] == value
  {
    KeyEnd(pre, key, value);
    FirstKey(pre, key, [COLON] + value);
    ColonFirst(value);
  }

  lemma NotThere(t: seq<byte>, c: byte, j: nat)
    requires j < |t| && t[j] != c
    ensures !OccursAt(t, [c], j)
  {
    assert t[j..j + 1][0] == t[j];
  }

  lemma QuoteAfter(s: seq<byte>, post: seq<byte>)
    requires QUOTE !in s
    ensures Find(s + [QUOTE] + post, [QUOTE]) == Some(|s|)
  {
    var rest := s + [QUOTE] + post;
    assert rest[|s|..|s| + 1] == [QUOTE];
    forall j | 0 <= j < |s| ensures !OccursAt(rest, [QUOTE], j) {
      assert rest[j] == s[j] && s[j] in s;
      NotThere(rest, QUOTE, j);
    }
    FindIs(rest, [QUOTE], |s|);
  }

  lemma StringValue(s: seq<byte>, post: seq<byte>)
    requires QUOTE !in s
    ensures StringAt(Quoted(s) + post) == Some((s, |s| + 2))
  {
    var v := Quoted(s) + post;
    assert BlankFront(v) == 0 && v[0] == QUOTE;
    assert v[1..] == s + [QUOTE] + post;
    QuoteAfter(s, post);
    assert v[1..1 + |s|] == s;
  }

  /** The string after the first `key` is its value. */
  lemma ValueFound(pre: seq<byte>, key: seq<byte>, s: seq<byte>, post: seq<byte>)
    requires key != [] && NoQuoteThen(pre, key[0]) && QUOTE !in s
    ensures StringAfter(pre + Quoted(key) + [COLON] + Quoted(s) + post, key) == Some((s, |pre| + |key| + |s| + 5))
  {
    Assoc(pre + Quoted(key) + [COLON], Quoted(s), post);
    KeyValue(pre, key, Quoted(s) + post);
    StringValue(s, post);
  }

  lemma {:induction false} NumberValue(num: seq<byte>, post: seq<byte>)
    requires num != [] && post != [] && !NumberByte(post[0])
    requires forall i :: 0 <= i < |num| ==> NumberByte(num[i])
    ensures TrimStart(num + post) == num + post && NumberSpan(num + post) == |num|
  {
    var v := num + post;
    assert NumberByte(v[0]) && BlankFront(v) == 0;
    assert v[|num|] == post[0];
  }

  // Results

  lemma OpeningFacts(c: byte)
    requires c == 114 || c == 101 || c == 99 || c == 109
    ensures |OPENING| == 17 && NoQuoteThen(OPENING, c)
  {
    assert forall j :: 0 <= j < 17 && OPENING[j] == QUOTE ==> j == 1 || j == 9 || j == 11 || j == 15;
  }

  /** The canonical result body is accepted with exactly its signature. */
  lemma {:induction false} ResultRoundTrip(sig: seq<byte>)
    requires Utf8(sig) && QUOTE !in sig
    ensures Parse(ResultBody(sig)) == Accepted(sig)
  {
    assert Ascii("result")[0] == 114;
    OpeningFacts(114);
    ValueFound(OPENING, Ascii("result"), sig, ID);
    ResultIsText(sig);
  }

  lemma {:induction false} ResultIsText(sig: seq<byte>)
    requires Utf8(sig)
    ensures Utf8(ResultBody(sig))
  {
    AsciiParts(OPENING, Ascii("result"), ID);
    Utf8Quoted(sig);
    Utf8Parts(OPENING, Quoted(Ascii("result")), Quoted(sig), ID);
  }

  lemma {:induction false} AsciiParts(a: seq<byte>, key: seq<byte>, d: seq<byte>)
    requires forall i :: 0 <= i < |a| ==> a[i] < 0x80
    requires forall i :: 0 <= i < |key| ==> key[i] < 0x80
    requires forall i :: 0 <= i < |d| ==> d[i] < 0x80
    ensures Utf8(a) && Utf8(Quoted(key)) && Utf8(d)
  {
    Utf8Ascii(a);
    Utf8Ascii(Quoted(key));
    Utf8Ascii(d);
  }

  lemma {:induction false} Utf8Parts(a: seq<byte>, b: seq<byte>, c: seq<byte>, d: seq<byte>)
    requires Utf8(a) && Utf8(b) && Utf8(c) && Utf8(d)
    ensures Utf8(a + b + [COLON] + c + d)
  {
    Utf8Ascii([COLON]);
    Utf8Concat(a, b);
    Utf8Concat(a + b, [COLON]);
    Utf8Concat(a + b + [COLON], c);
    Utf8Concat(a + b + [COLON] + c, d);
  }

  lemma {:induction false} Utf8Quoted(s: seq<byte>)
    requires Utf8(s)
    ensures Utf8(Quoted(s))
  {
    Utf8Ascii([QUOTE]);
    Utf8Concat([QUOTE], s);
    Utf8Concat([QUOTE] + s, [QUOTE]);
  }

  // Errors

  lemma ErrorOpeningFacts(c: byte)
    requires c == 114 || c == 109 || c == 99
    ensures |ERROR_OPENING| == 26 && NoQuoteThen(ERROR_OPENING, c)
  {
    assert forall j :: 0 <= j < 26 && ERROR_OPENING[j] == QUOTE ==>
                         j == 1 || j == 9 || j == 11 || j == 15 || j == 17 || j == 23;
  }

  lemma KeyFacts(key: seq<byte>, c: byte)
    requires key != [] && QUOTE !in key && key[0] != c && c != COLON && c != QUOTE
    ensures NoQuoteThen(Quoted(key) + [COLON], c)
  {
  }

  lemma NoQuotesAtAll(s: seq<byte>, c: byte)
    requires QUOTE !in s
    ensures NoQuoteThen(s, c)
  {
    forall j | 0 <= j < |s| ensures s[j] != QUOTE { assert s[j] in s; }
  }

  lemma ThreeParts(a: seq<byte>, key: seq<byte>, num: seq<byte>, c: byte)
    requires NoQuoteThen(a, c) && NoQuoteThen(Quoted(key) + [COLON], c) && NoQuoteThen(num, c)
    ensures NoQuoteThen(a + Quoted(key) + [COLON] + num, c)
  {
    var k := Quoted(key) + [COLON];
    NoQuoteThenConcat(a, k, c);
    NoQuoteThenConcat(a + k, num, c);
    assert a + Quoted(key) + [COLON] + num == a + k + num;
  }

  lemma HeadFacts(code: int, c: byte)
    requires c == 114 || c == 109
    ensures NoQuoteThen(ErrorHead(code), c)
  {
    var num := DecI64(code) + [44];
    ErrorOpeningFacts(c);
    assert Ascii("code")[0] == 99;
    KeyFacts(Ascii("code"), c);
    NoQuotesAtAll(num, c);
    ThreeParts(ERROR_OPENING, Ascii("code"), num, c);
  }

  lemma HeadIsText(code: int)
    ensures Utf8(ErrorHead(code))
  {
    var num := DecI64(code) + [44];
    AsciiParts(ERROR_OPENING, Ascii("code"), num);
    Utf8Parts(ERROR_OPENING, Quoted(Ascii("code")), num, []);
    assert ErrorHead(code) + [] == ErrorHead(code);
  }

  lemma {:induction false} ErrorIsText(code: int, message: seq<byte>)
    requires Utf8(message)
    ensures Utf8(ErrorBody(code, message))
  {
    HeadIsText(code);
    AsciiParts([], Ascii("message"), [125] + ID);
    Utf8Quoted(message);
    Utf8Parts(ErrorHead(code), Quoted(Ascii("message")), Quoted(message), [125] + ID);
  }

  lemma NumberFound(pre: seq<byte>, key: seq<byte>, num: seq<byte>, rest: seq<byte>)
    requires key != [] && NoQuoteThen(pre, key[0])
    requires num != [] && forall i :: 0 <= i < |num| ==> NumberByte(num[i])
    ensures var text, i := pre + Quoted(key) + [COLON] + (num + [44]) + rest, |pre| + |key| + 3;
            AfterColon(text, key) == Some(i)
            && TrimStart(text[i..])[..NumberSpan(TrimStart(text[i..]))] == num
  {
    var v := num + ([44] + rest);
    assert pre + Quoted(key) + [COLON] + (num + [44]) + rest == pre + Quoted(key) + [COLON] + v;
    KeyValue(pre, key, v);
    NumberValue(num, [44] + rest);
    assert v[..|num|] == num;
  }

  lemma {:induction false} ErrorCode(code: int, message: seq<byte>)
    requires -I64 <= code < I64 && Utf8(message)
    ensures JsonI64After(ErrorBody(code, message), Ascii("code")) == Some(code)
  {
    assert Ascii("code")[0] == 99;
    ErrorOpeningFacts(99);
    NumberFound(ERROR_OPENING, Ascii("code"), DecI64(code), ErrorRest(message));
    ErrorParts(code, message);
    ParseOfDecI64(code);
    ErrorIsText(code, message);
  }

  lemma {:induction false} ErrorMessage(code: int, message: seq<byte>)
    requires Utf8(message) && QUOTE !in message
    ensures JsonStringAfter(ErrorBody(code, message), Ascii("message")) == Some(message)
  {
    HeadFacts(code, 109);
    ValueFound(ErrorHead(code), Ascii("message"), message, [125] + ID);
    ErrorIsText(code, message);
  }

  /** A quoted word behind text without its key can only be the string that starts there. */
  lemma WordIsString(front: seq<byte>, s: seq<byte>, tail: seq<byte>, word: seq<byte>, k: nat)
    requires word != [] && QUOTE !in word && QUOTE !in s
    requires NoQuoteThen(front, word[0]) && NoQuoteThen([QUOTE] + tail, word[0])
    requires OccursAt(front + Quoted(s) + tail, Quoted(word), k)
    ensures k == |front| && s == word
  {
    var text, e := front + Quoted(s) + tail, |front| + 1 + |s|;
    OccursAtByte(text, Quoted(word), k, 0);
    OccursAtByte(text, Quoted(word), k, 1);
    TextParts(front, s, tail);
    NotBefore(text, front, word[0], k);
    NotAfter(text, e, [QUOTE] + tail, word[0], k);
    WordFollows(text, word, k);
    SameWord(text[k + 1..], s, word);
  }

  lemma TextParts(front: seq<byte>, s: seq<byte>, tail: seq<byte>)
    ensures var text, m := front + Quoted(s) + tail, |front|;
            && front <= text && text[m] == QUOTE && s + [QUOTE] <= text[m + 1..]
            && text[m + 1 + |s|..] == [QUOTE] + tail
            && forall i :: m < i <= m + |s| ==> text[i] == s[i - m - 1]
  {
  }

  lemma WordFollows(text: seq<byte>, word: seq<byte>, k: nat)
    requires OccursAt(text, Quoted(word), k)
    ensures word + [QUOTE] <= text[k + 1..]
  {
    assert word + [QUOTE] == Quoted(word)[1..] == text[k..k + |Quoted(word)|][1..];
  }

  lemma NotBefore(text: seq<byte>, front: seq<byte>, c: byte, k: nat)
    requires NoQuoteThen(front, c) && front <= text && k + 1 < |text|
    requires text[k] == QUOTE && text[k + 1] == c
    ensures k >= |front|
  {
  }

  lemma NotAfter(text: seq<byte>, e: nat, tail: seq<byte>, c: byte, k: nat)
    requires NoQuoteThen(tail, c) && e <= |text| && text[e..] == tail && k + 1 < |text|
    requires text[k] == QUOTE && text[k + 1] == c
    ensures k < e
  {
    forall i | e <= i < |text| ensures text[i] == tail[i - e] {
      assert text[i] == text[e..][i - e];
    }
  }

  /** Of two strings at the same place, the longer one runs over the end of the shorter one. */
  lemma RunsOver(t: seq<byte>, s: seq<byte>, word: seq<byte>)
    requires s + [QUOTE] <= t && word <= t
    ensures |s| < |word| ==> word[|s|] == QUOTE
  {
    assert t[|s|] == (s + [QUOTE])[|s|];
  }

  lemma SameWord(t: seq<byte>, s: seq<byte>, word: seq<byte>)
    requires QUOTE !in word && QUOTE !in s
    requires s + [QUOTE] <= t && word + [QUOTE] <= t
    ensures s == word
  {
    assert s <= s + [QUOTE] && word <= word + [QUOTE];
    RunsOver(t, s, word);
    RunsOver(t, word, s);
    assert s == t[..|s|] && word == t[..|word|];
  }

  lemma NoStringAfterId()
    ensures OccursAt(Quoted(Ascii("result")) + ([125] + ID), Quoted(Ascii("result")), 0)
    ensures StringAfter(Quoted(Ascii("result")) + ([125] + ID), Ascii("result")).None?
  {
    var word, after := Ascii("result"), [125] + ID;
    var text := Quoted(word) + after;
    assert text[0..8] == Quoted(word);
    FindIs(text, Quoted(word), 0);
    assert text[8..] == after;
    assert after[6..7] == [COLON];
    forall j | 0 <= j < 6 ensures !OccursAt(after, [COLON], j) {
      assert after[j..j + 1][0] == after[j] != COLON;
    }
    FindIs(after, [COLON], 6);
    assert text[15..][0] == 49;
  }

  /** A word that can only be found as a string value has no string of its own, unless one follows that value. */
  lemma NoValueOfWord(front: seq<byte>, s: seq<byte>, tail: seq<byte>, word: seq<byte>)
    requires word != [] && QUOTE !in word && QUOTE !in s
    requires NoQuoteThen(front, word[0]) && NoQuoteThen([QUOTE] + tail, word[0])
    requires OccursAt(Quoted(word) + tail, Quoted(word), 0) && StringAfter(Quoted(word) + tail, word).None?
    ensures StringAfter(front + Quoted(s) + tail, word).None?
  {
    var body := front + Quoted(s) + tail;
    var k := Find(body, Quoted(word));
    if k.Some? {
      WordIsString(front, s, tail, word, k.value);
      assert body == front + (Quoted(word) + tail);
      SkipFront(front, Quoted(word) + tail, word);
    }
  }

  /** No error body is taken for a result, not even one whose message is `result`. */
  lemma ErrorIsNoResult(code: int, message: seq<byte>)
    requires QUOTE !in message
    ensures StringAfter(ErrorBody(code, message), Ascii("result")).None?
  {
    var front, tail := ErrorHead(code) + Quoted(Ascii("message")) + [COLON], [125] + ID;
    assert Ascii("result")[0] == 114;
    FrontFacts(code);
    TailFacts();
    NoStringAfterId();
    NoValueOfWord(front, message, tail, Ascii("result"));
  }

  lemma FrontFacts(code: int)
    ensures NoQuoteThen(ErrorHead(code) + Quoted(Ascii("message")) + [COLON], 114)
  {
    HeadFacts(code, 114);
    assert Ascii("message")[0] == 109;
    KeyFacts(Ascii("message"), 114);
    NoQuoteThenConcat(ErrorHead(code), Quoted(Ascii("message")) + [COLON], 114);
    Assoc(ErrorHead(code), Quoted(Ascii("message")), [COLON]);
  }

  lemma TailFacts()
    ensures NoQuoteThen([QUOTE] + ([125] + ID), 114)
  {
  }

  lemma SkipSlice(front: seq<byte>, text: seq<byte>, n: nat)
    requires n <= |text|
    ensures (front + text)[|front| + n..] == text[n..]
  {
  }

  lemma ColonSkips(front: seq<byte>, text: seq<byte>, key: seq<byte>)
    requires Find(front + text, Quoted(key)) == Some(|front|) && OccursAt(text, Quoted(key), 0)
    ensures AfterColon(text, key).Some? ==> AfterColon(front + text, key) == Some(|front| + AfterColon(text, key).value)
    ensures AfterColon(text, key).None? ==> AfterColon(front + text, key).None?
  {
    FindIs(text, Quoted(key), 0);
    SkipSlice(front, text, |Quoted(key)|);
  }

  /** Text before the first quoted key does not matter. */
  lemma SkipFront(front: seq<byte>, text: seq<byte>, key: seq<byte>)
    requires Find(front + text, Quoted(key)) == Some(|front|)
    requires OccursAt(text, Quoted(key), 0) && StringAfter(text, key).None?
    ensures StringAfter(front + text, key).None?
  {
    ColonSkips(front, text, key);
    var i := AfterColon(text, key);
    if i.Some? { SkipSlice(front, text, i.value); }
  }

  /** The canonical error body is rejected with exactly its code and message. */
  lemma {:induction false} ErrorRoundTrip(code: int, message: seq<byte>)
    requires -I64 <= code < I64 && Utf8(message) && QUOTE !in message
    ensures Parse(ErrorBody(code, message)) == Rejected(code, message)
  {
    var body := ErrorBody(code, message);
    ErrorIsNoResult(code, message);
    ErrorKeyFound(code, message);
    ErrorCode(code, message);
    ErrorMessage(code, message);
  }

  lemma OpeningHasError()
    ensures Find(ERROR_OPENING, Quoted(Ascii("error"))).Some?
  {
    assert ERROR_OPENING[17..24] == Quoted(Ascii("error"));
    assert OccursAt(ERROR_OPENING, Quoted(Ascii("error")), 17);
  }

  lemma FoundInWhole(p: seq<byte>, rest: seq<byte>, needle: seq<byte>)
    requires Find(p, needle).Some?
    ensures Find(p + rest, needle).Some?
  {
    FindExtend(p, rest, needle);
  }

  lemma ErrorKeyFound(code: int, message: seq<byte>)
    ensures Find(ErrorBody(code, message), Quoted(Ascii("error"))).Some?
  {
    OpeningHasError();
    var num := DecI64(code) + [44];
    Assoc4(ERROR_OPENING, Quoted(Ascii("code")), [COLON], num);
    var rest := Quoted(Ascii("code")) + [COLON] + num;
    ErrorParts(code, message);
    Assoc(ERROR_OPENING, rest, ErrorRest(message));
    FoundInWhole(ERROR_OPENING, rest + ErrorRest(message), Quoted(Ascii("error")));
  }
}
