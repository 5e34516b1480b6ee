/** The decimal rendering of 64-bit indexes into a fixed 20-byte buffer
    (domain/notification.go:155-175). */
module Decimals {

  const MIN_INT: int := -0x8000_0000_0000_0000
  const MAX_INT: int := 0x7fff_ffff_ffff_ffff

  type Int64 = i: int | MIN_INT <= i <= MAX_INT

  /** Two's complement negation: the smallest value is its own negative. */
  function Negate(i: Int64): Int64 {
    if i == MIN_INT then i else -i
  }

  function Digit(d: nat): char
    requires d < 10
  {
    ('0' as int + d) as char
  }

  /** The digits of `n`, none for zero. */
  function Digits(n: nat): string {
    if n == 0 then [] else Digits(n / 10) + [Digit(n % 10)]
  }

  function Decimal(n: nat): string {
    if n == 0 then "0" else Digits(n)
  }

  /** What the rendering returns, the one value it gets wrong included. */
  function Rendered(i: Int64): string {
    if i == MIN_INT then "-"
    else if i < 0 then "-" + Decimal(-i)
    else Decimal(i)
  }

  function Pow10(n: nat): nat {
    if n == 0 then 1 else 10 * Pow10(n - 1)
  }

  lemma {:induction false} Pow10AddsUp(a: nat, b: nat)
    ensures Pow10(a + b) == Pow10(a) * Pow10(b)
  {
    if a > 0 { Pow10AddsUp(a - 1, b); }
  }

  lemma Int64FitsNineteenDigits()
    ensures Fits(MAX_INT, 19)
  {
    assert Pow10(5) == 100000;
    Pow10AddsUp(5, 5);
    assert Pow10(4) == 10000;
    Pow10AddsUp(5, 4);
    Pow10AddsUp(10, 9);
  }

  function DigitsOf(n: int): string {
    if n > 0 then Digits(n) else []
  }

  /** `n` has at most `room` digits. */
  predicate Fits(n: int, room: nat) {
    n < Pow10(room)
  }

  lemma {:induction false} FitsStep(n: nat, room: nat)
    requires n > 0 && Fits(n, room)
    ensures room > 0 && Fits(n / 10, room - 1)
  {
  }

  lemma {:induction false} DigitsStep(n: nat, room: nat, tail: string)
    requires n > 0 && Fits(n, room)
    ensures room > 0 && Fits(n / 10, room - 1)
    ensures DigitsOf(n) + tail == DigitsOf(n / 10) + ([Digit(n % 10)] + tail)
  {
    FitsStep(n, room);
    assert Digits(n) == Digits(n / 10) + [Digit(n % 10)];
  }

  method Itoa(i: Int64) returns (s: string)
    ensures s == Rendered(i)
  {
    if i == 0 { return "0"; }
    var neg := i < 0;
    var n := i;
    if neg { n := Negate(n); }
    var buf := new char[20];
    var pos := FillDigits(buf, n);
    if neg {
      pos := pos - 1;
      buf[pos] := '-';
    }
    s := buf[pos..];
  }

  /** The digits, right-aligned in the buffer, with room left for a sign. */
  method FillDigits(buf: array<char>, i: Int64) returns (pos: nat)
    requires buf.Length == 20
    modifies buf
    ensures 1 <= pos <= 20 && buf[pos..] == DigitsOf(i)
  {
    pos := buf.Length;
    Int64FitsNineteenDigits();
    assert Fits(i, 19);
    var n := i;
    while n > 0
      invariant 1 <= pos <= 20
      invariant Fits(n, pos - 1)
      invariant DigitsOf(i) == DigitsOf(n) + buf[pos..]
    {
      DigitsStep(n, pos - 1, buf[pos..]);
      pos := PutDigit(buf, pos, n % 10);
      n := n / 10;
    }
  }

  method PutDigit(buf: array<char>, end: nat, d: nat) returns (pos: nat)
    requires 0 < end <= buf.Length && d < 10
    modifies buf
    ensures pos == end - 1 && buf[pos..] == [Digit(d)] + old(buf[end..])
  {
    pos := end - 1;
    buf[pos] := Digit(d);
  }

  // ---- an independent reading of decimal strings ----

  predicate IsDigit(c: char) {
    '0' <= c <= '9'
  }

  function NatOf(s: string): (n: nat)
    requires forall i :: 0 <= i < |s| ==> IsDigit(s[i])
  {
    if s == [] then 0
    else
      assert IsDigit(s[|s| - 1]);
      10 * NatOf(s[..|s| - 1]) + (s[|s| - 1] as int - '0' as int)
  }

  ghost predicate Denotes(s: string, i: int) {
    if s != [] && s[0] == '-' then
      |s| > 1 && s[1] != '0' && (forall k :: 1 <= k < |s| ==> IsDigit(s[k])) && i + NatOf(s[1..]) == 0
    else
      s != [] && (s[0] == '0' ==> |s| == 1) && (forall k :: 0 <= k < |s| ==> IsDigit(s[k])) && i == NatOf(s)
  }

  lemma {:induction false} DigitsDenote(n: nat)
    ensures n > 0 ==> Digits(n) != [] && Digits(n)[0] != '0'
    ensures forall k :: 0 <= k < |Digits(n)| ==> IsDigit(Digits(n)[k])
    ensures NatOf(Digits(n)) == n
  {
    if n > 0 {
      DigitsDenote(n / 10);
      var s := Digits(n);
      assert s[..|s| - 1] == Digits(n / 10);
    }
  }

  /** The rendering is the canonical decimal form of its input for every 64-bit value
      but the smallest, for which it is a bare minus sign. */
  lemma RenderedDenotesIff(i: Int64)
    ensures Denotes(Rendered(i), i) <==> i != MIN_INT
  {
    if MIN_INT < i < 0 {
      NegativeDenotes(-i);
    } else if i >= 0 {
      DigitsDenote(i);
    }
  }

  lemma NegativeDenotes(n: nat)
    requires n > 0
    ensures Denotes("-" + Digits(n), 0 - n)
  {
  }
}
