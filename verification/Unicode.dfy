/** UTF-8 as section 3 of RFC 3629 defines it, code point by code point, and what
    the byte test of `std::str::from_utf8` accepts. */
module Unicode {
  import opened Bytes

  /** A code point that is not a surrogate. */
  predicate Scalar(cp: nat) { cp < 0xD800 || 0xE000 <= cp < 0x110000 }

  function Utf8Of(cp: nat): (r: seq<byte>)
    requires cp < 0x110000
    ensures 1 <= |r| <= 4
  {
    if cp < 0x80 then [cp]
    else if cp < 0x800 then [0xC0 + cp / 0x40, 0x80 + cp % 0x40]
    else if cp < 0x10000 then [0xE0 + cp / 0x1000, 0x80 + cp / 0x40 % 0x40, 0x80 + cp % 0x40]
    else [0xF0 + cp / 0x40000, 0x80 + cp / 0x1000 % 0x40, 0x80 + cp / 0x40 % 0x40, 0x80 + cp % 0x40]
  }

  predicate AllScalar(cps: seq<nat>) { forall k :: 0 <= k < |cps| ==> Scalar(cps[k]) }

  /** The text that spells out the code points. */
  function Spelled(cps: seq<nat>): seq<byte>
    requires AllScalar(cps)
  {
    if cps == [] then [] else Utf8Of(cps[0]) + Spelled(cps[1..])
  }

  ghost predicate IsText(s: seq<byte>) {
    exists cps: seq<nat> :: AllScalar(cps) && Spelled(cps) == s
  }

  /** The code point at the front of a text. */
  function CodePoint(s: seq<byte>): (cp: nat)
    requires CharLen(s) > 0
  {
    var n := CharLen(s);
    var w: int := s[0];
    if n == 1 then w
    else
      var x: int := s[1];
      if n == 2 then (w - 0xC0) * 0x40 + (x - 0x80)
      else
        var y: int := s[2];
        if n == 3 then (w - 0xE0) * 0x1000 + (x - 0x80) * 0x40 + (y - 0x80)
        else
          var z: int := s[3];
          (w - 0xF0) * 0x40000 + (x - 0x80) * 0x1000 + (y - 0x80) * 0x40 + (z - 0x80)
  }

  lemma Div6(q: nat, r: nat)
    requires r < 0x40
    ensures (q * 0x40 + r) / 0x40 == q && (q * 0x40 + r) % 0x40 == r
  {
  }

  lemma Div12(q: nat, r: nat)
    requires r < 0x1000
    ensures (q * 0x1000 + r) / 0x1000 == q
  {
  }

  lemma Div18(q: nat, r: nat)
    requires r < 0x40000
    ensures (q * 0x40000 + r) / 0x40000 == q
  {
  }

  /** A number in base 64. */
  lemma Digits(a: nat, b: nat, c: nat, d: nat)
    requires a < 8 && b < 0x40 && c < 0x40 && d < 0x40
    ensures var cp := a * 0x40000 + b * 0x1000 + c * 0x40 + d;
            && cp / 0x40000 == a && cp / 0x1000 % 0x40 == b && cp / 0x40 % 0x40 == c && cp % 0x40 == d
            && cp / 0x1000 == a * 0x40 + b && cp / 0x40 == a * 0x1000 + b * 0x40 + c
  {
    Div6(a * 0x1000 + b * 0x40 + c, d);
    Div12(a * 0x40 + b, c * 0x40 + d);
    Div18(a, b * 0x1000 + c * 0x40 + d);
    Div6(a * 0x40 + b, c);
    Div6(a, b);
  }

  lemma CharIsScalar(s: seq<byte>)
    requires CharLen(s) > 0
    ensures Scalar(CodePoint(s)) && Utf8Of(CodePoint(s)) == s[..CharLen(s)]
  {
    var n := CharLen(s);
    if n == 2 {
      TwoBytes(s[0], s[1]);
    } else if n == 3 {
      ThreeBytes(s[0], s[1], s[2]);
    } else if n == 4 {
      FourBytes(s[0], s[1], s[2], s[3]);
    }
    assert Utf8Of(CodePoint(s)) == s[..n];
  }

  lemma TwoBytes(w: int, x: int)
    requires 0xC2 <= w < 0xE0 && 0x80 <= x < 0xC0
    ensures var cp := (w - 0xC0) * 0x40 + (x - 0x80); 0x80 <= cp < 0x800 && Utf8Of(cp) == [w, x]
  {
    Digits(0, 0, w - 0xC0, x - 0x80);
  }

  lemma ThreeBytes(w: int, x: int, y: int)
    requires 0xE0 <= w < 0xF0 && 0x80 <= x < 0xC0 && 0x80 <= y < 0xC0
    requires (w == 0xE0 ==> 0xA0 <= x) && (w == 0xED ==> x < 0xA0)
    ensures var cp := (w - 0xE0) * 0x1000 + (x - 0x80) * 0x40 + (y - 0x80);
            0x800 <= cp < 0x10000 && Scalar(cp) && Utf8Of(cp) == [w, x, y]
  {
    Digits(0, w - 0xE0, x - 0x80, y - 0x80);
  }

  lemma FourBytes(w: int, x: int, y: int, z: int)
    requires 0xF0 <= w < 0xF5 && 0x80 <= x < 0xC0 && 0x80 <= y < 0xC0 && 0x80 <= z < 0xC0
    requires (w == 0xF0 ==> 0x90 <= x) && (w == 0xF4 ==> x < 0x90)
    ensures var cp := (w - 0xF0) * 0x40000 + (x - 0x80) * 0x1000 + (y - 0x80) * 0x40 + (z - 0x80);
            0x10000 <= cp < 0x110000 && Utf8Of(cp) == [w, x, y, z]
  {
    Digits(w - 0xF0, x - 0x80, y - 0x80, z - 0x80);
  }

  lemma ScalarIsChar(cp: nat, rest: seq<byte>)
    requires Scalar(cp)
    ensures CharLen(Utf8Of(cp) + rest) == |Utf8Of(cp)|
  {
  }

  lemma {:induction false} SpelledIsText(cps: seq<nat>)
    requires AllScalar(cps)
    ensures Utf8(Spelled(cps))
    decreases |cps|
  {
    if cps != [] {
      var c, rest := Utf8Of(cps[0]), Spelled(cps[1..]);
      ScalarIsChar(cps[0], rest);
      assert (c + rest)[|c|..] == rest;
      SpelledIsText(cps[1..]);
    }
  }

  lemma {:induction false} SpelledCons(cp: nat, cps: seq<nat>)
    requires Scalar(cp) && AllScalar(cps)
    ensures AllScalar([cp] + cps) && Spelled([cp] + cps) == Utf8Of(cp) + Spelled(cps)
  {
    assert ([cp] + cps)[1..] == cps;
  }

  lemma {:induction false} TextIsSpelled(s: seq<byte>) returns (cps: seq<nat>)
    requires Utf8(s)
    ensures AllScalar(cps) && Spelled(cps) == s
    decreases |s|
  {
    if s == [] {
      cps := [];
    } else {
      CharIsScalar(s);
      var n := CharLen(s);
      var rest := TextIsSpelled(s[n..]);
      cps := [CodePoint(s)] + rest;
      SpelledCons(CodePoint(s), rest);
      assert s == s[..n] + s[n..];
    }
  }

  /** The bytes accepted as text are those that spell out scalar values. */
  lemma {:induction false} Utf8Is(s: seq<byte>)
    ensures Utf8(s) <==> IsText(s)
  {
    if cps: seq<nat> :| AllScalar(cps) && Spelled(cps) == s {
      SpelledIsText(cps);
    }
    if Utf8(s) {
      var cps := TextIsSpelled(s);
    }
  }
}
