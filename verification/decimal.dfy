/** Decimal text of natural numbers, as `Display` prints them. */
module Decimal {
  function Digit(d: nat): char
    requires d < 10
  {
    (48 + d) as char
  }

  predicate IsDigit(c: char) {
    48 <= c as int < 58
  }

  function Show(n: nat): (s: string)
    ensures s != [] && forall i :: 0 <= i < |s| ==> IsDigit(s[i])
  {
    if n < 10 then [Digit(n)] else Show(n / 10) + [Digit(n % 10)]
  }

  /** The number that a string of digits denotes. */
  function Value(s: string): nat
    requires forall i :: 0 <= i < |s| ==> IsDigit(s[i])
  {
    assert s != [] ==> IsDigit(s[|s| - 1]);
    if s == [] then 0 else 10 * Value(s[..|s| - 1]) + (s[|s| - 1] as int - 48)
  }

  lemma {:induction false} ValueShow(n: nat)
    ensures Value(Show(n)) == n
  {
    if n >= 10 {
      assert Show(n)[..|Show(n)| - 1] == Show(n / 10);
      ValueShow(n / 10);
    }
  }

  /** How many digits `s` begins with. */
  function Digits(s: string): (n: nat)
    ensures n <= |s| && forall i :: 0 <= i < n ==> IsDigit(s[i])
  {
    if s != [] && IsDigit(s[0]) then 1 + Digits(s[1..]) else 0
  }

  lemma {:induction false} DigitsOf(a: string, rest: string)
    requires forall i :: 0 <= i < |a| ==> IsDigit(a[i])
    requires rest == [] || !IsDigit(rest[0])
    ensures Digits(a + rest) == |a|
  {
    if a == [] {
      assert a + rest == rest;
    } else {
      assert (a + rest)[1..] == a[1..] + rest;
      DigitsOf(a[1..], rest);
    }
  }

  /** A number read off the front, and what follows it. */
  function ReadNumber(s: string): (nat, string) {
    (Value(s[..Digits(s)]), s[Digits(s)..])
  }

  lemma ReadShow(n: nat, rest: string)
    requires rest == [] || !IsDigit(rest[0])
    ensures ReadNumber(Show(n) + rest) == (n, rest)
  {
    var s := Show(n) + rest;
    DigitsOf(Show(n), rest);
    assert s[..|Show(n)|] == Show(n) && s[|Show(n)|..] == rest;
    ValueShow(n);
  }

  /** The part of `s` after the last occurrence of `c`, as an index. */
  function AfterLast(s: string, c: char): (i: nat)
    ensures i <= |s|
  {
    if s == [] || s[|s| - 1] == c then |s| else AfterLast(s[..|s| - 1], c)
  }

  lemma {:induction false} AfterLastOf(a: string, c: char, b: string)
    requires c !in b
    ensures AfterLast(a + [c] + b, c) == |a| + 1
  {
    var s := a + [c] + b;
    if b == [] {
      assert s[|s| - 1] == c;
    } else {
      assert s[|s| - 1] == b[|b| - 1];
      assert s[..|s| - 1] == a + [c] + b[..|b| - 1];
      AfterLastOf(a, c, b[..|b| - 1]);
    }
  }
}
