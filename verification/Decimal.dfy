/** Decimal numerals as the crate prints them (`splice`) and as the standard
    library parses them (`str::parse::<usize>` and `str::parse::<i64>`). */
module Decimal {
  import opened Bytes

  const I64: int := 0x8000_0000_0000_0000

  predicate IsDigit(b: byte) { 48 <= b < 58 }

  predicate AllDigits(s: seq<byte>) {
    forall i :: 0 <= i < |s| ==> IsDigit(s[i])
  }

  /** The shortest decimal numeral of `n`. */
  function Dec(n: nat): (r: seq<byte>)
    ensures |r| > 0 && AllDigits(r)
  {
    if n < 10 then [48 + n] else Dec(n / 10) + [48 + n % 10]
  }

  function Pow10(k: nat): (p: nat)
    ensures p > 0
  {
    if k == 0 then 1 else 10 * Pow10(k - 1)
  }

  /** A numeral has at most `k` digits exactly when its value is below `10^k`. */
  lemma {:induction false} DecLength(n: nat, k: nat)
    requires k > 0
    ensures |Dec(n)| <= k <==> n < Pow10(k)
  {
    if n < 10 {
      assert Pow10(k) == 10 * Pow10(k - 1);
    } else if k == 1 {
      assert Pow10(1) == 10 * Pow10(0);
    } else {
      DecLength(n / 10, k - 1);
    }
  }

  function Value(s: seq<byte>): nat
    requires AllDigits(s)
  {
    if s == [] then 0 else Value(s[..|s| - 1]) * 10 + (s[|s| - 1] - 48)
  }

  lemma {:induction false} ValueOfDec(n: nat)
    ensures Value(Dec(n)) == n
  {
    if n >= 10 {
      ValueOfDec(n / 10);
      assert Dec(n)[..|Dec(n)| - 1] == Dec(n / 10);
    }
  }

  /** `str::parse::<usize>` on a 64-bit target: an optional plus sign, at least one digit, no overflow. */
  function ParseUsize(s: seq<byte>): (r: Option<nat>)
  {
    var d := if s != [] && s[0] == 43 then s[1..] else s;
    if d != [] && AllDigits(d) && Value(d) < U64 then Some(Value(d)) else None
  }

  /** `str::parse::<i64>`: an optional sign, at least one digit, in range. */
  function ParseI64(s: seq<byte>): (r: Option<int>)
  {
    var neg := s != [] && s[0] == 45;
    var d := if s != [] && (s[0] == 43 || s[0] == 45) then s[1..] else s;
    if d == [] || !AllDigits(d) then None
    else if neg then (if Value(d) <= I64 then Some(0 - Value(d)) else None)
    else if Value(d) < I64 then Some(Value(d)) else None
  }

  /** The numeral of an `i64`. */
  function DecI64(n: int): (r: seq<byte>)
  {
    if n < 0 then [45] + Dec(-n) else Dec(n)
  }

  lemma {:induction false} ParseOfDec(n: nat)
    requires n < U64
    ensures ParseUsize(Dec(n)) == Some(n)
  {
    ValueOfDec(n);
  }

  lemma ParseOfDecI64(n: int)
    requires -I64 <= n < I64
    ensures ParseI64(DecI64(n)) == Some(n)
  {
    if n < 0 {
      ValueOfDec(-n);
      assert DecI64(n)[1..] == Dec(-n);
    } else {
      ValueOfDec(n);
    }
  }

  // What the parsers accept

  function Zeros(k: nat): (r: seq<byte>)
    ensures |r| == k && AllDigits(r)
  {
    if k == 0 then [] else Zeros(k - 1) + [48]
  }

  /** The numeral of `n`, possibly behind zeros. */
  ghost predicate Numeral(s: seq<byte>, n: nat) {
    exists k: nat :: s == Zeros(k) + Dec(n)
  }

  lemma {:induction false} ValueSnoc(d: seq<byte>, b: byte)
    requires AllDigits(d) && IsDigit(b)
    ensures AllDigits(d + [b]) && Value(d + [b]) == Value(d) * 10 + (b - 48)
  {
    assert (d + [b])[..|d|] == d;
  }

  lemma {:induction false} ValueOfNumeral(k: nat, n: nat)
    ensures AllDigits(Zeros(k) + Dec(n)) && Value(Zeros(k) + Dec(n)) == n
    decreases n + 10, k
  {
    if n >= 10 {
      ValueOfNumeral(k, n / 10);
      ValueSnoc(Zeros(k) + Dec(n / 10), 48 + n % 10);
      Assoc(Zeros(k), Dec(n / 10), [48 + n % 10]);
    } else {
      ValueOfZeros(k);
      ValueSnoc(Zeros(k), 48 + n);
    }
  }

  lemma {:induction false} ValueOfZeros(k: nat)
    ensures Value(Zeros(k)) == 0
  {
    if k > 0 {
      ValueOfZeros(k - 1);
      ValueSnoc(Zeros(k - 1), 48);
    }
  }

  lemma NumeralSnoc(k: nat, v: nat, b: byte) returns (k': nat)
    requires IsDigit(b)
    ensures Zeros(k) + Dec(v) + [b] == Zeros(k') + Dec(v * 10 + (b - 48))
  {
    if v == 0 {
      k' := k + 1;
      assert Zeros(k) + Dec(v) == Zeros(k + 1);
    } else {
      k' := k;
      Assoc(Zeros(k), Dec(v), [b]);
    }
  }

  lemma {:induction false} DigitsAreNumeral(d: seq<byte>) returns (k: nat)
    requires d != [] && AllDigits(d)
    ensures d == Zeros(k) + Dec(Value(d))
    decreases |d|
  {
    var init, b := d[..|d| - 1], d[|d| - 1];
    assert d == init + [b];
    ValueSnoc(init, b);
    if init == [] {
      k := 0;
      assert d == [b] == Zeros(0) + [b];
    } else {
      k := DigitsAreNumeral(init);
      k := NumeralSnoc(k, Value(init), b);
    }
  }

  /** A text of digits is the numeral of its value and of no other number. */
  lemma {:induction false} NumeralIs(s: seq<byte>, n: nat)
    ensures Numeral(s, n) <==> s != [] && AllDigits(s) && Value(s) == n
  {
    if Numeral(s, n) {
      var k: nat :| s == Zeros(k) + Dec(n);
      ValueOfNumeral(k, n);
    }
    if s != [] && AllDigits(s) {
      var k := DigitsAreNumeral(s);
    }
  }

  /** Exactly the numerals below 2^64, with or without a plus sign. */
  lemma ParseUsizeIs(s: seq<byte>, n: nat)
    ensures ParseUsize(s) == Some(n) <==>
              n < U64 && (Numeral(s, n) || (s != [] && s[0] == 43 && Numeral(s[1..], n)))
  {
    NumeralIs(s, n);
    if s != [] { NumeralIs(s[1..], n); }
  }

  /** Exactly the numerals in range, with or without a sign. */
  ghost predicate Integer(s: seq<byte>, n: int) {
    || (0 <= n < I64 && Numeral(s, n))
    || (0 <= n < I64 && s != [] && s[0] == 43 && Numeral(s[1..], n))
    || (-I64 <= n <= 0 && s != [] && s[0] == 45 && Numeral(s[1..], -n))
  }

  lemma ParseI64Is(s: seq<byte>, n: int)
    ensures ParseI64(s) == Some(n) <==> Integer(s, n)
  {
    var abs := if n < 0 then -n else n;
    NumeralIs(s, abs);
    if s != [] {
      NumeralIs(s[1..], abs);
    }
  }
}
