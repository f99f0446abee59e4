/** Byte strings, substring search and UTF-8 validity: the vocabulary shared by
    the envelope, the response framer and the JSON-RPC scanner. */
module Bytes {
  type byte = b: int | 0 <= b < 256

  datatype Option<+T> = None | Some(value: T)

  datatype Result<+T, +E> = Ok(value: T) | Err(error: E)

  /** The number of values of a 64-bit word. */
  const U64: nat := 0x1_0000_0000_0000_0000

  /** The longest transaction a job can carry (job.rs). */
  const MAX_TX: nat := 1232

  const CR: byte := 13
  const LF: byte := 10
  const SPACE: byte := 32

  /** The blank line that ends an HTTP header section. */
  const BLANK_LINE: seq<byte> := [13, 10, 13, 10]

  lemma Assoc<T>(a: seq<T>, b: seq<T>, c: seq<T>)
    ensures (a + b) + c == a + (b + c)
  {
  }

  lemma Assoc4<T>(a: seq<T>, b: seq<T>, c: seq<T>, d: seq<T>)
    ensures a + b + c + d == a + (b + c + d)
  {
    Assoc(a, b, c);
    Assoc(a, b + c, d);
  }

  /** An ASCII literal as bytes. */
  function Ascii(s: string): (r: seq<byte>)
    requires forall i :: 0 <= i < |s| ==> s[i] < '\U{80}'
    ensures |r| == |s|
    ensures forall i :: 0 <= i < |s| ==> r[i] == s[i] as int
  {
    seq(|s|, i requires 0 <= i < |s| => s[i] as int)
  }

  function Spaces(n: nat): (r: seq<byte>)
    ensures |r| == n
    ensures forall i :: 0 <= i < n ==> r[i] == SPACE
  {
    seq(n, i => SPACE)
  }

  // Substring search

  predicate OccursAt(h: seq<byte>, needle: seq<byte>, i: int) {
    0 <= i && i + |needle| <= |h| && h[i..i + |needle|] == needle
  }

  /** `needle` occurs in `h` at `i` and nowhere else (overlapping occurrences count). */
  ghost predicate UniqueAt(h: seq<byte>, needle: seq<byte>, i: int) {
    OccursAt(h, needle, i) && forall j :: OccursAt(h, needle, j) ==> j == i
  }

  /** The first occurrence, as `str::find` and `windows(n).position` report it. */
  function Find(h: seq<byte>, needle: seq<byte>): (r: Option<nat>)
    ensures r.Some? ==> OccursAt(h, needle, r.value)
    ensures r.Some? ==> forall j :: j < r.value ==> !OccursAt(h, needle, j)
    ensures r.None? ==> forall j :: !OccursAt(h, needle, j)
  {
    FindFrom(h, needle, 0)
  }

  function FindFrom(h: seq<byte>, needle: seq<byte>, k: nat): (r: Option<nat>)
    requires forall j :: j < k ==> !OccursAt(h, needle, j)
    ensures r.Some? ==> OccursAt(h, needle, r.value)
    ensures r.Some? ==> forall j :: j < r.value ==> !OccursAt(h, needle, j)
    ensures r.None? ==> forall j :: !OccursAt(h, needle, j)
    decreases |h| - k
  {
    if k + |needle| > |h| then None
    else if OccursAt(h, needle, k) then Some(k)
    else FindFrom(h, needle, k + 1)
  }

  /** An occurrence depends only on the bytes it covers. */
  lemma OccursAtSame(g: seq<byte>, h: seq<byte>, needle: seq<byte>, i: nat)
    requires i + |needle| <= |g| && i + |needle| <= |h|
    requires forall k :: i <= k < i + |needle| ==> g[k] == h[k]
    ensures OccursAt(g, needle, i) == OccursAt(h, needle, i)
  {
    assert g[i..i + |needle|] == h[i..i + |needle|];
  }

  lemma OccursAtByte(h: seq<byte>, needle: seq<byte>, i: nat, k: nat)
    requires OccursAt(h, needle, i) && k < |needle|
    ensures h[i + k] == needle[k]
  {
    assert h[i..i + |needle|][k] == needle[k];
  }

  /** Appending bytes never moves the first occurrence. */
  lemma FindExtend(h: seq<byte>, tail: seq<byte>, needle: seq<byte>)
    requires Find(h, needle).Some?
    ensures Find(h + tail, needle) == Find(h, needle)
  {
    var i := Find(h, needle).value;
    OccursAtSame(h, h + tail, needle, i);
    forall j | 0 <= j < i ensures !OccursAt(h + tail, needle, j) {
      OccursAtSame(h, h + tail, needle, j);
    }
  }

  lemma FindIs(h: seq<byte>, needle: seq<byte>, i: nat)
    requires OccursAt(h, needle, i)
    requires forall j :: 0 <= j < i ==> !OccursAt(h, needle, j)
    ensures Find(h, needle) == Some(i)
  {
  }

  // UTF-8

  predicate Cont(b: byte) { 0x80 <= b < 0xC0 }

  /** Length of the well-formed UTF-8 character at the front of `s`, or 0 (table 3-7 of the Unicode standard). */
  function CharLen(s: seq<byte>): (n: nat)
    ensures n <= 4 && n <= |s|
  {
    if s == [] then 0
    else if s[0] < 0x80 then 1
    else if 0xC2 <= s[0] < 0xE0 then
      if |s| >= 2 && Cont(s[1]) then 2 else 0
    else if 0xE0 <= s[0] < 0xF0 then
      if |s| >= 3 && Cont(s[1]) && Cont(s[2])
         && (s[0] == 0xE0 ==> 0xA0 <= s[1]) && (s[0] == 0xED ==> s[1] < 0xA0) then 3 else 0
    else if 0xF0 <= s[0] < 0xF5 then
      if |s| >= 4 && Cont(s[1]) && Cont(s[2]) && Cont(s[3])
         && (s[0] == 0xF0 ==> 0x90 <= s[1]) && (s[0] == 0xF4 ==> s[1] < 0x90) then 4 else 0
    else 0
  }

  /** `std::str::from_utf8` succeeds. */
  predicate Utf8(s: seq<byte>) {
    s == [] || (CharLen(s) > 0 && Utf8(s[CharLen(s)..]))
  }

  lemma CharLenExtend(a: seq<byte>, b: seq<byte>)
    requires CharLen(a) > 0
    ensures CharLen(a + b) == CharLen(a)
  {
  }

  lemma {:induction false} Utf8Concat(a: seq<byte>, b: seq<byte>)
    requires Utf8(a) && Utf8(b)
    ensures Utf8(a + b)
    decreases |a|
  {
    if a == [] {
      assert a + b == b;
    } else {
      var n := CharLen(a);
      var rest := a[n..];
      assert Utf8(rest + b) by { Utf8Concat(rest, b); }
      assert (a + b)[n..] == rest + b;
      CharLenExtend(a, b);
    }
  }

  lemma {:induction false} Utf8Ascii(a: seq<byte>)
    requires forall i :: 0 <= i < |a| ==> a[i] < 0x80
    ensures Utf8(a)
  {
    if a != [] {
      Utf8Ascii(a[1..]);
    }
  }

  /** A valid text that continues a valid text continues it with valid text. */
  lemma {:induction false} Utf8Rest(a: seq<byte>, b: seq<byte>)
    requires Utf8(a) && Utf8(a + b)
    ensures Utf8(b)
    decreases |a|
  {
    if a == [] {
      assert a + b == b;
    } else {
      var n := CharLen(a);
      CharLenExtend(a, b);
      assert (a + b)[n..] == a[n..] + b;
      Utf8Rest(a[n..], b);
    }
  }
}
