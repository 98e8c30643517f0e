/** Decimal text as an f-string writes it, with the facts that make numbers in names readable again. */
module Decimal {

  function Digit(d: nat): char
    requires d < 10
  {
    ('0' as int + d) as char
  }

  predicate IsDigit(c: char) {
    '0' <= c <= '9'
  }

  function Format(n: nat): string {
    if n < 10 then [Digit(n)] else Format(n / 10) + [Digit(n % 10)]
  }

  /** The number that a run of digits denotes. */
  function Value(s: string): int {
    if s == [] then 0 else Value(s[..|s| - 1]) * 10 + (s[|s| - 1] as int - '0' as int)
  }

  lemma {:induction false} ValueOfFormat(n: nat)
    ensures Value(Format(n)) == n
  {
    var s := Format(n);
    if n >= 10 {
      ValueOfFormat(n / 10);
      assert s[..|s| - 1] == Format(n / 10);
    }
  }

  lemma {:induction false} OnlyDigits(n: nat)
    ensures Format(n) != [] && forall i :: 0 <= i < |Format(n)| ==> IsDigit(Format(n)[i])
  {
    if n >= 10 {
      OnlyDigits(n / 10);
    }
  }

  /** The length of the run of digits at the front. */
  function Run(s: string): (n: nat)
    ensures n <= |s|
  {
    if s == [] || !IsDigit(s[0]) then 0 else 1 + Run(s[1..])
  }

  lemma {:induction false} RunOfDigits(a: string, x: string)
    requires forall i :: 0 <= i < |a| ==> IsDigit(a[i])
    requires x != [] ==> !IsDigit(x[0])
    ensures Run(a + x) == |a|
  {
    if a == [] {
      assert a + x == x;
    } else {
      assert (a + x)[1..] == a[1..] + x;
      RunOfDigits(a[1..], x);
    }
  }

  /** A number followed by text that does not start with a digit is read back uniquely. */
  lemma {:induction false} NumberThenText(m: nat, n: nat, x: string, y: string)
    requires Format(m) + x == Format(n) + y
    requires x != [] ==> !IsDigit(x[0])
    requires y != [] ==> !IsDigit(y[0])
    ensures m == n && x == y
  {
    OnlyDigits(m);
    OnlyDigits(n);
    RunOfDigits(Format(m), x);
    RunOfDigits(Format(n), y);
    CancelPrefix(Format(m), Format(n), x, y);
    ValueOfFormat(m);
    ValueOfFormat(n);
  }

  /** The number at the front of a text. */
  function Number(s: string): int {
    Value(s[..Run(s)])
  }

  lemma {:induction false} NumberOf(n: nat, text: string)
    requires text != [] ==> !IsDigit(text[0])
    ensures Run(Format(n) + text) == |Format(n)| > 0 && Number(Format(n) + text) == n
  {
    OnlyDigits(n);
    RunOfDigits(Format(n), text);
    assert (Format(n) + text)[..|Format(n)|] == Format(n);
    ValueOfFormat(n);
  }

  lemma {:induction false} CancelPrefix(a: string, b: string, x: string, y: string)
    requires |a| == |b| && a + x == b + y
    ensures a == b && x == y
  {
    assert a == (a + x)[..|a|] && b == (b + y)[..|a|];
    assert x == (a + x)[|a|..] && y == (b + y)[|a|..];
  }
}
