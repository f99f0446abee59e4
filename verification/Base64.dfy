/** The standard base64 alphabet with padding (section 4 of RFC 4648), the
    encoding `splice` writes into the body slot, and its inverse. */
module Base64 {
  import opened Bytes

  const PAD: byte := 61

  function Symbol(v: int): (b: byte)
    requires 0 <= v < 64
    ensures b < 0x80 && b != PAD && b != CR && b != LF
  {
    if v < 26 then 65 + v
    else if v < 52 then 97 + (v - 26)
    else if v < 62 then 48 + (v - 52)
    else if v == 62 then 43 else 47
  }

  function Unsymbol(b: byte): (r: Option<int>)
    ensures r.Some? ==> 0 <= r.value < 64 && Symbol(r.value) == b
  {
    if 65 <= b < 91 then Some(b - 65)
    else if 97 <= b < 123 then Some(b - 97 + 26)
    else if 48 <= b < 58 then Some(b - 48 + 52)
    else if b == 43 then Some(62)
    else if b == 47 then Some(63) else None
  }

  /** The number of symbols for `n` bytes: `n.div_ceil(3) * 4`. */
  function EncodedLen(n: nat): (r: nat) { (n + 2) / 3 * 4 }

  /** The four six-bit groups of three bytes. */
  datatype Groups = Groups(a: int, b: int, c: int, d: int) {
    predicate Valid() { 0 <= a < 64 && 0 <= b < 64 && 0 <= c < 64 && 0 <= d < 64 }
  }

  /** Splitting loses no bit: the bytes are the bit groups glued back together. */
  function Split(x: byte, y: byte, z: byte): (g: Groups)
    ensures g.Valid()
    ensures g.a * 4 + g.b / 16 == x
    ensures g.b % 16 * 16 + g.c / 4 == y
    ensures g.c % 4 * 64 + g.d == z
    ensures y == 0 ==> g.b % 16 == 0
    ensures z == 0 ==> g.c % 4 == 0
  {
    var g := Groups(x / 4, x % 4 * 16 + y / 16, y % 16 * 4 + z / 64, z % 64);
    assert g.b % 16 == y / 16;
    assert g.c % 4 == z / 64;
    g
  }

  function Encode(tx: seq<byte>): (r: seq<byte>)
    ensures |r| == EncodedLen(|tx|)
    ensures forall i :: 0 <= i < |r| ==> r[i] < 0x80 && r[i] != CR && r[i] != LF
  {
    if |tx| == 0 then []
    else if |tx| == 1 then
      var g := Split(tx[0], 0, 0);
      [Symbol(g.a), Symbol(g.b), PAD, PAD]
    else if |tx| == 2 then
      var g := Split(tx[0], tx[1], 0);
      [Symbol(g.a), Symbol(g.b), Symbol(g.c), PAD]
    else
      var g := Split(tx[0], tx[1], tx[2]);
      [Symbol(g.a), Symbol(g.b), Symbol(g.c), Symbol(g.d)] + Encode(tx[3..])
  }

  /** The decoder of section 4 of RFC 4648: padding only at the end, no stray bits. */
  function Decode(s: seq<byte>): (r: Option<seq<byte>>)
  {
    if s == [] then Some([])
    else if |s| < 4 then None
    else
      var a, b, c, d := Unsymbol(s[0]), Unsymbol(s[1]), Unsymbol(s[2]), Unsymbol(s[3]);
      if a.None? || b.None? then None
      else if s[2..] == [PAD, PAD] then
        if b.value % 16 == 0 then Some([a.value * 4 + b.value / 16]) else None
      else if c.None? then None
      else if s[3..] == [PAD] then
        if c.value % 4 == 0
        then Some([a.value * 4 + b.value / 16, b.value % 16 * 16 + c.value / 4])
        else None
      else if d.None? then None
      else
        var rest := Decode(s[4..]);
        if rest.None? then None
        else Some([a.value * 4 + b.value / 16, b.value % 16 * 16 + c.value / 4,
                   c.value % 4 * 64 + d.value] + rest.value)
  }

  lemma SymbolRoundTrip(v: int)
    requires 0 <= v < 64
    ensures Unsymbol(Symbol(v)) == Some(v)
  {
  }

  lemma DecodeOne(g: Groups, x: byte)
    requires g.Valid() && g.b % 16 == 0 && g.a * 4 + g.b / 16 == x
    ensures Decode([Symbol(g.a), Symbol(g.b), PAD, PAD]) == Some([x])
  {
    var s := [Symbol(g.a), Symbol(g.b), PAD, PAD];
    assert s[2..] == [PAD, PAD];
  }

  lemma DecodeTwo(g: Groups, x: byte, y: byte)
    requires g.Valid() && g.c % 4 == 0 && g.a * 4 + g.b / 16 == x && g.b % 16 * 16 + g.c / 4 == y
    ensures Decode([Symbol(g.a), Symbol(g.b), Symbol(g.c), PAD]) == Some([x, y])
  {
    var s := [Symbol(g.a), Symbol(g.b), Symbol(g.c), PAD];
    assert s[2..][0] != PAD;
    assert s[3..] == [PAD];
  }

  lemma {:induction false} DecodeThree(g: Groups, x: byte, y: byte, z: byte, code: seq<byte>)
    requires g.Valid() && Decode(code).Some?
    requires g.a * 4 + g.b / 16 == x && g.b % 16 * 16 + g.c / 4 == y && g.c % 4 * 64 + g.d == z
    ensures Decode([Symbol(g.a), Symbol(g.b), Symbol(g.c), Symbol(g.d)] + code)
         == Some([x, y, z] + Decode(code).value)
  {
    var s := [Symbol(g.a), Symbol(g.b), Symbol(g.c), Symbol(g.d)] + code;
    assert s[2..][0] != PAD && s[3..][0] != PAD;
    assert s[4..] == code;
    SymbolRoundTrip(g.a);
    SymbolRoundTrip(g.b);
    SymbolRoundTrip(g.c);
    SymbolRoundTrip(g.d);
  }

  /** Decoding an encoded transaction gives it back. */
  lemma {:induction false} RoundTrip(tx: seq<byte>)
    ensures Decode(Encode(tx)) == Some(tx)
  {
    if |tx| == 1 {
      var x := tx[0];
      DecodeOne(Split(x, 0, 0), x);
      assert tx == [x];
    } else if |tx| == 2 {
      var x, y := tx[0], tx[1];
      DecodeTwo(Split(x, y, 0), x, y);
      assert tx == [x, y];
    } else if |tx| >= 3 {
      var x, y, z, rest := tx[0], tx[1], tx[2], tx[3..];
      RoundTrip(rest);
      DecodeThree(Split(x, y, z), x, y, z, Encode(rest));
      assert tx == [x, y, z] + rest;
    }
  }

  // Against the standard

  const CAPITALS: seq<byte> := Ascii("ABCDEFGHIJKLMNOPQRSTUVWXYZ")
  const SMALLS: seq<byte> := Ascii("abcdefghijklmnopqrstuvwxyz")
  const OTHERS: seq<byte> := Ascii("0123456789+/")

  lemma LetterIs(v: nat)
    requires v < 26
    ensures CAPITALS[v] == 65 + v && SMALLS[v] == 97 + v
  {
    assert v == 0 || v == 1 || v == 2 || v == 3 || v == 4 || v == 5 || v == 6 || v == 7 || v == 8 || v == 9
           || v == 10 || v == 11 || v == 12 || v == 13 || v == 14 || v == 15 || v == 16 || v == 17 || v == 18
           || v == 19 || v == 20 || v == 21 || v == 22 || v == 23 || v == 24 || v == 25;
  }

  lemma OtherIs(v: nat)
    requires v < 12
    ensures OTHERS[v] == if v < 10 then 48 + v else if v == 10 then 43 else 47
  {
    assert v == 0 || v == 1 || v == 2 || v == 3 || v == 4 || v == 5 || v == 6 || v == 7 || v == 8 || v == 9
           || v == 10 || v == 11;
  }

  /** Table 1 of RFC 4648. */
  lemma AlphabetIs(v: nat)
    requires v < 64
    ensures Symbol(v) == if v < 26 then CAPITALS[v] else if v < 52 then SMALLS[v - 26] else OTHERS[v - 52]
  {
    if v < 26 {
      LetterIs(v);
    } else if v < 52 {
      LetterIs(v - 26);
    } else {
      OtherIs(v - 52);
    }
  }

  /** Test vectors of section 10 of RFC 4648: `f`, `fo` and `foo` become `Zg==`, `Zm8=` and `Zm9v`. */
  lemma VectorsAre()
    ensures Encode([102]) == [90, 103, 61, 61]
    ensures Encode([102, 111]) == [90, 109, 56, 61]
    ensures Encode([102, 111, 111]) == [90, 109, 57, 118]
  {
    assert Encode([102, 111, 111][3..]) == [];
  }
}
