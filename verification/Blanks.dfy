/** White space as Unicode lists it (property White_Space), and what the trimming
    of `str` does with it. */
module Blanks {
  import opened Bytes
  import opened Framing
  import opened Unicode

  predicate WhiteSpace(cp: nat) {
    || 0x9 <= cp <= 0xD || cp == 0x20 || cp == 0x85 || cp == 0xA0 || cp == 0x1680
    || 0x2000 <= cp <= 0x200A || cp == 0x2028 || cp == 0x2029 || cp == 0x202F || cp == 0x205F || cp == 0x3000
  }

  /** One white-space character, as the front of a text shows it. */
  predicate Blank(c: seq<byte>) { c != [] && BlankFront(c) == |c| }

  lemma BlankChar(c: seq<byte>)
    requires Blank(c)
    ensures CharLen(c) == |c| && WhiteSpace(CodePoint(c)) && Utf8Of(CodePoint(c)) == c
  {
    CharIsScalar(c);
    assert c[..|c|] == c;
  }

  lemma WhiteChar(cp: nat)
    requires WhiteSpace(cp)
    ensures Blank(Utf8Of(cp))
  {
  }

  /** The blanks are the White_Space characters of Unicode, no more and no fewer. */
  lemma BlankIsWhiteSpace(c: seq<byte>)
    ensures Blank(c) <==> exists cp: nat :: WhiteSpace(cp) && Utf8Of(cp) == c
  {
    if Blank(c) {
      BlankChar(c);
    }
    if cp: nat :| WhiteSpace(cp) && Utf8Of(cp) == c {
      WhiteChar(cp);
    }
  }

  predicate AllBlank(cs: seq<seq<byte>>) { forall k :: 0 <= k < |cs| ==> Blank(cs[k]) }

  // One character

  lemma FrontBlank(c: seq<byte>, s: seq<byte>)
    requires Blank(c)
    ensures BlankFront(c + s) == |c| && !Cont(c[0]) && forall k :: 1 <= k < |c| ==> Cont(c[k])
  {
  }

  lemma CutFront(s: seq<byte>, n: nat)
    requires 0 < n == BlankFront(s)
    ensures Blank(s[..n]) && s == s[..n] + s[n..]
  {
  }

  lemma CutBack(s: seq<byte>, n: nat)
    requires n < |s| && BlankBack(s) == |s| - n
    ensures Blank(s[n..]) && s == s[..n] + s[n..]
  {
  }

  /** A text that the front test finds blank starts with a blank, and no other does. */
  lemma FrontIsBlank(s: seq<byte>)
    ensures BlankFront(s) > 0 <==> exists n: nat :: n <= |s| && Blank(s[..n])
  {
    if BlankFront(s) > 0 {
      CutFront(s, BlankFront(s));
    }
    if n: nat :| n <= |s| && Blank(s[..n]) {
      FrontBlank(s[..n], s[n..]);
      assert s[..n] + s[n..] == s;
    }
  }

  lemma BackBlank(s: seq<byte>, c: seq<byte>)
    requires Blank(c)
    ensures BlankBack(s + c) == |c|
  {
  }

  /** A text that the back test finds blank ends with a blank, and no other does. */
  lemma BackIsBlank(s: seq<byte>)
    ensures BlankBack(s) > 0 <==> exists n: nat :: n <= |s| && Blank(s[n..])
  {
    if BlankBack(s) > 0 {
      CutBack(s, |s| - BlankBack(s));
    }
    if n: nat :| n <= |s| && Blank(s[n..]) {
      BackBlank(s[..n], s[n..]);
      assert s[..n] + s[n..] == s;
    }
  }

  // Trimming

  lemma {:induction false} TrimsFront(cs: seq<seq<byte>>, s: seq<byte>)
    requires AllBlank(cs)
    ensures TrimStart(Flat(cs) + s) == TrimStart(s)
    decreases |cs|
  {
    if cs == [] {
      assert Flat(cs) + s == s;
    } else {
      var c, rest := cs[0], Flat(cs[1..]) + s;
      Assoc(c, Flat(cs[1..]), s);
      FrontBlank(c, rest);
      assert (c + rest)[|c|..] == rest;
      TrimsFront(cs[1..], s);
    }
  }

  lemma {:induction false} TrimsBack(s: seq<byte>, cs: seq<seq<byte>>)
    requires AllBlank(cs)
    ensures TrimEnd(s + Flat(cs)) == TrimEnd(s)
    decreases |cs|
  {
    if cs == [] {
      assert s + Flat(cs) == s;
    } else {
      var c := cs[0];
      Assoc(s, c, Flat(cs[1..]));
      TrimsBack(s + c, cs[1..]);
      BackBlank(s, c);
      assert (s + c)[..|s|] == s;
    }
  }

  lemma {:induction false} FlatCons(c: seq<byte>, cs: seq<seq<byte>>)
    ensures Flat([c] + cs) == c + Flat(cs)
  {
    assert ([c] + cs)[1..] == cs;
  }

  lemma {:induction false} FlatSnoc(cs: seq<seq<byte>>, c: seq<byte>)
    ensures Flat(cs + [c]) == Flat(cs) + c
    decreases |cs|
  {
    if cs == [] {
      assert cs + [c] == [c] && [c][1..] == [];
    } else {
      assert (cs + [c])[1..] == cs[1..] + [c];
      FlatSnoc(cs[1..], c);
      Assoc(cs[0], Flat(cs[1..]), c);
    }
  }

  lemma {:induction false} TrimStartTrims(s: seq<byte>) returns (cs: seq<seq<byte>>)
    ensures AllBlank(cs) && s == Flat(cs) + TrimStart(s) && BlankFront(TrimStart(s)) == 0
    decreases |s|
  {
    var n := BlankFront(s);
    if n == 0 {
      cs := [];
      assert Flat(cs) + s == s;
    } else {
      CutFront(s, n);
      var ds := TrimStartTrims(s[n..]);
      cs := [s[..n]] + ds;
      FlatCons(s[..n], ds);
      Assoc(s[..n], Flat(ds), TrimStart(s));
    }
  }

  lemma EndStep(init: seq<byte>, r: seq<byte>, ds: seq<seq<byte>>, c: seq<byte>) returns (cs: seq<seq<byte>>)
    requires AllBlank(ds) && init == r + Flat(ds) && Blank(c)
    ensures AllBlank(cs) && init + c == r + Flat(cs)
  {
    cs := ds + [c];
    FlatSnoc(ds, c);
    Assoc(r, Flat(ds), c);
  }

  lemma {:induction false} TrimEndTrims(s: seq<byte>) returns (cs: seq<seq<byte>>)
    ensures AllBlank(cs) && s == TrimEnd(s) + Flat(cs) && BlankBack(TrimEnd(s)) == 0
    decreases |s|
  {
    var n := |s| - BlankBack(s);
    if n == |s| {
      cs := [];
      assert s + Flat(cs) == s;
    } else {
      CutBack(s, n);
      var ds := TrimEndTrims(s[..n]);
      cs := EndStep(s[..n], TrimEnd(s), ds, s[n..]);
    }
  }

  /** `s` is white space, then `r`, which starts with none. */
  ghost predicate StartTrimmed(s: seq<byte>, r: seq<byte>) {
    BlankFront(r) == 0 && exists cs :: AllBlank(cs) && s == Flat(cs) + r
  }

  /** `trim_start` drops exactly the white space in front. */
  lemma {:induction false} TrimStartIs(s: seq<byte>, r: seq<byte>)
    ensures TrimStart(s) == r <==> StartTrimmed(s, r)
  {
    if StartTrimmed(s, r) {
      var cs :| AllBlank(cs) && s == Flat(cs) + r;
      TrimsFront(cs, r);
    }
    var cs := TrimStartTrims(s);
  }

  /** `s` is white space, then `r`, then white space, and `r` neither starts nor ends with any. */
  ghost predicate Trimmed(s: seq<byte>, r: seq<byte>) {
    && BlankFront(r) == 0 && BlankBack(r) == 0
    && exists cs, ds :: AllBlank(cs) && AllBlank(ds) && s == Flat(cs) + (r + Flat(ds))
  }

  /** White space behind a text does not make it start with white space. */
  lemma {:induction false} StartStays(r: seq<byte>, ds: seq<seq<byte>>)
    requires r != [] && AllBlank(ds) && BlankFront(r) == 0
    ensures BlankFront(r + Flat(ds)) == 0
  {
    if ds == [] {
      assert r + Flat(ds) == r;
    } else {
      FrontBlank(ds[0], []);
      NotContinued(r, Flat(ds));
    }
  }

  lemma NotContinued(r: seq<byte>, b: seq<byte>)
    requires r != [] && BlankFront(r) == 0 && b != [] && !Cont(b[0])
    ensures BlankFront(r + b) == 0
  {
  }

  lemma {:induction false} TrimAround(cs: seq<seq<byte>>, r: seq<byte>, ds: seq<seq<byte>>)
    requires AllBlank(cs) && AllBlank(ds) && BlankFront(r) == 0 && BlankBack(r) == 0
    ensures Trim(Flat(cs) + (r + Flat(ds))) == r
  {
    TrimsFront(cs, r + Flat(ds));
    if r == [] {
      TrimsFront(ds, []);
      assert r + Flat(ds) == Flat(ds) + [];
    } else {
      StartStays(r, ds);
      TrimsBack(r, ds);
    }
  }

  /** Trimming the end does not bring white space to the front. */
  lemma StartKept(s: seq<byte>, r: seq<byte>)
    requires r <= s && BlankFront(s) == 0
    ensures BlankFront(r) == 0
  {
  }

  lemma TrimTrims(s: seq<byte>) returns (cs: seq<seq<byte>>, ds: seq<seq<byte>>)
    ensures AllBlank(cs) && AllBlank(ds) && s == Flat(cs) + (Trim(s) + Flat(ds))
    ensures BlankFront(Trim(s)) == 0 && BlankBack(Trim(s)) == 0
  {
    cs := TrimStartTrims(s);
    ds := TrimEndTrims(TrimStart(s));
    StartKept(TrimStart(s), Trim(s));
  }

  /** `trim` drops exactly the white space around. */
  lemma TrimIs(s: seq<byte>, r: seq<byte>)
    ensures Trim(s) == r <==> Trimmed(s, r)
  {
    if Trimmed(s, r) {
      var cs, ds :| AllBlank(cs) && AllBlank(ds) && s == Flat(cs) + (r + Flat(ds));
      TrimAround(cs, r, ds);
    }
    var cs, ds := TrimTrims(s);
  }
}
