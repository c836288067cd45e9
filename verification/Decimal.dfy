// Decimal numbers as sprintf prints and sscanf reads them.
module Decimal {
  import opened Basics

  const SPACE: byte := 32
  const MINUS: byte := 45
  const PLUS: byte := 43
  const ZERO: byte := 48

  const INT_LIMIT: int := 0x8000_0000                 // 2^31
  const LONG_LIMIT: int := 0x8000_0000_0000_0000      // 2^63
  const ULONG_LIMIT: int := 0x1_0000_0000_0000_0000   // 2^64

  // ---------------------------------------------------------------- printing

  function Digits(n: nat): (s: Bytes)
    ensures |s| > 0 && forall i :: 0 <= i < |s| ==> IsDigit(s[i])
    ensures s[0] == ZERO ==> n == 0 && |s| == 1
  {
    if n < 10 then [ZERO + n as byte] else Digits(n / 10) + [ZERO + (n % 10) as byte]
  }

  // "%ld" and "%d"
  function Print(v: int): Bytes {
    if v < 0 then [MINUS] + Digits(-v) else Digits(v)
  }

  // An unsigned long handed to "%ld" is read as signed.
  function AsSigned(u: int): int {
    if u < LONG_LIMIT then u else u - ULONG_LIMIT
  }

  // ---------------------------------------------------------------- scanning

  predicate IsDigit(b: byte) {
    48 <= b <= 57
  }

  predicate IsSpace(b: byte) {
    b == 32 || 9 <= b <= 13
  }

  function SkipSpace(s: Bytes): (r: Bytes)
    ensures |r| <= |s|
  {
    if s != [] && IsSpace(s[0]) then SkipSpace(s[1..]) else s
  }

  function DigitRun(s: Bytes): (k: nat)
    ensures k <= |s| && forall i :: 0 <= i < k ==> IsDigit(s[i])
  {
    if s != [] && IsDigit(s[0]) then 1 + DigitRun(s[1..]) else 0
  }

  function Value(ds: Bytes): nat
    requires forall i :: 0 <= i < |ds| ==> IsDigit(ds[i])
  {
    if ds == [] then 0
    else
      assert IsDigit(ds[|ds| - 1]);
      10 * Value(ds[..|ds| - 1]) + (ds[|ds| - 1] as int - 48)
  }

  // One integer conversion, before any limit is applied: white space, a sign, the longest run of
  // digits; None on a matching failure.
  function ScanNumber(s: Bytes): (r: Option<(int, Bytes)>)
    ensures r.Some? ==> |r.value.1| < |s|
  {
    var t := SkipSpace(s);
    var negative := t != [] && t[0] == MINUS;
    var u := if t != [] && (t[0] == MINUS || t[0] == PLUS) then t[1..] else t;
    var k := DigitRun(u);
    if k == 0 then None
    else
      var v: int := Value(u[..k]);
      Some((if negative then -v else v, u[k..]))
  }

  // "%lu": a value with a sign is negated modulo 2^64, one out of range becomes ULONG_MAX.
  function ToUlong(v: int): (r: nat)
    ensures r < ULONG_LIMIT
  {
    if -ULONG_LIMIT < v < ULONG_LIMIT then (if v < 0 then v + ULONG_LIMIT else v) else ULONG_LIMIT - 1
  }

  // "%ld": saturates.
  function ToLong(v: int): int {
    if v < -LONG_LIMIT then -LONG_LIMIT else if v >= LONG_LIMIT then LONG_LIMIT - 1 else v
  }

  // The conversion of a wider integer to int.
  function ToInt(v: int): (r: int)
    ensures -INT_LIMIT <= r < INT_LIMIT
    ensures -INT_LIMIT <= v < INT_LIMIT ==> r == v
  {
    (v + INT_LIMIT) % (2 * INT_LIMIT) - INT_LIMIT
  }

  // ---------------------------------------------------------------- scanning what was printed

  // What may follow a printed number without being taken for part of it.
  predicate EndsNumber(rest: Bytes) {
    rest == [] || !IsDigit(rest[0])
  }

  lemma {:induction false} DigitRunStops(ds: Bytes, rest: Bytes)
    requires forall i :: 0 <= i < |ds| ==> IsDigit(ds[i])
    requires EndsNumber(rest)
    ensures DigitRun(ds + rest) == |ds|
  {
    if ds == [] {
      assert ds + rest == rest;
    } else {
      assert (ds + rest)[1..] == ds[1..] + rest;
      DigitRunStops(ds[1..], rest);
    }
  }

  lemma {:induction false} ValueOfDigits(n: nat)
    ensures Value(Digits(n)) == n
  {
    if n >= 10 {
      ValueOfDigits(n / 10);
      var s := Digits(n);
      assert s[..|s| - 1] == Digits(n / 10);
    } else {
      assert Digits(n)[..0] == [];
    }
  }

  lemma DigitsScanned(n: nat, rest: Bytes)
    requires EndsNumber(rest)
    ensures var s := Digits(n) + rest;
            var k := DigitRun(s);
      k > 0 && Value(s[..k]) == n && s[k..] == rest && IsDigit(s[0])
  {
    var ds := Digits(n);
    ValueOfDigits(n);
    DigitRunStops(ds, rest);
    assert (ds + rest)[..|ds|] == ds && (ds + rest)[|ds|..] == rest;
  }

  lemma ScanUnsigned(s: Bytes, n: nat, rest: Bytes)
    requires s != [] && IsDigit(s[0])
    requires var k := DigitRun(s); k > 0 && Value(s[..k]) == n && s[k..] == rest
    ensures ScanNumber(s) == Some((n, rest))
  {
  }

  lemma ScanNegative(signed: Bytes, s: Bytes, n: int, rest: Bytes)
    requires signed != [] && signed[0] == MINUS && signed[1..] == s
    requires var k := DigitRun(s); k > 0 && Value(s[..k]) == n && s[k..] == rest
    ensures ScanNumber(signed) == Some((-n, rest))
  {
  }

  // Scanning reads back exactly the number that was printed.
  lemma ScanPrinted(v: int, rest: Bytes)
    requires EndsNumber(rest)
    ensures ScanNumber(Print(v) + rest) == Some((v, rest))
  {
    if v < 0 {
      DigitsScanned(-v, rest);
      Associate([MINUS], Digits(-v), rest);
      var s := Digits(-v) + rest;
      assert ([MINUS] + s)[1..] == s;
      ScanNegative([MINUS] + s, s, -v, rest);
    } else {
      DigitsScanned(v, rest);
      ScanUnsigned(Digits(v) + rest, v, rest);
    }
  }

  lemma ScanSpaced(v: int, rest: Bytes)
    requires EndsNumber(rest)
    ensures ScanNumber([SPACE] + (Print(v) + rest)) == Some((v, rest))
  {
    ScanPrinted(v, rest);
    var s := Print(v) + rest;
    assert ([SPACE] + s)[1..] == s;
    assert IsDigit(Digits(if v < 0 then -v else v)[0]);
    assert SkipSpace([SPACE] + s) == SkipSpace(s) == s;
  }

  // A size survives "%ld" followed by "%lu" over the whole range of unsigned long.
  lemma UlongRoundTrip(u: int)
    requires 0 <= u < ULONG_LIMIT
    ensures ToUlong(AsSigned(u)) == u
  {
  }
}
