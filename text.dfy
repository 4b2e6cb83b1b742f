/** String helpers shared by the renderers: decimal digits, `"\n".join`,
    ASCII lower-casing. */
module Text {

  /** The decimal digit character for `d`. */
  function DigitChar(d: nat): (c: char)
    requires d < 10
    ensures '0' <= c <= '9'
    ensures c as int - '0' as int == d
  {
    ['0', '1', '2', '3', '4', '5', '6', '7', '8', '9'][d]
  }

  predicate IsDigit(c: char) {
    '0' <= c <= '9'
  }

  function DigitValue(c: char): (d: nat)
    requires IsDigit(c)
    ensures d < 10
  {
    c as int - '0' as int
  }

  /** Python's `str(n)` for a non-negative integer: no leading zeros. */
  function Decimal(n: nat): (s: string)
    ensures |s| >= 1
    ensures forall k :: 0 <= k < |s| ==> IsDigit(s[k])
    ensures |s| == 1 <==> n < 10
    decreases n
  {
    if n < 10 then [DigitChar(n)] else Decimal(n / 10) + [DigitChar(n % 10)]
  }

  /** Reading the digits back gives the number: `int(str(n)) == n`. */
  function DigitsValue(s: string): (n: nat)
    requires forall k :: 0 <= k < |s| ==> IsDigit(s[k])
  {
    if s == [] then 0 else DigitsValue(s[..|s| - 1]) * 10 + DigitValue(s[|s| - 1])
  }

  lemma {:induction false} DecimalRoundTrip(n: nat)
    ensures DigitsValue(Decimal(n)) == n
    decreases n
  {
    var s := Decimal(n);
    if n >= 10 {
      DecimalRoundTrip(n / 10);
      assert s[..|s| - 1] == Decimal(n / 10);
    }
  }

  function Pow10(n: nat): (p: nat)
    ensures p >= 1
  {
    if n == 0 then 1 else 10 * Pow10(n - 1)
  }

  /** `n` digits read back as a number below `10^n`. */
  lemma {:induction false} DigitsValueBound(s: string)
    requires forall k :: 0 <= k < |s| ==> IsDigit(s[k])
    ensures DigitsValue(s) < Pow10(|s|)
    decreases |s|
  {
    if s != [] {
      DigitsValueBound(s[..|s| - 1]);
    }
  }

  /** Distinct numbers have distinct decimal forms. */
  lemma DecimalInjective(a: nat, b: nat)
    requires Decimal(a) == Decimal(b)
    ensures a == b
  {
    DecimalRoundTrip(a);
    DecimalRoundTrip(b);
  }

  /** Python's `str(i)` for any integer. */
  function IntDecimal(i: int): (s: string)
    ensures |s| >= 1
    ensures s[0] == '-' <==> i < 0
  {
    if i < 0 then "-" + Decimal(-i) else Decimal(i)
  }

  /** Exactly two digits, zero-padded (`%02d`). */
  function Pad2(n: nat): (s: string)
    requires n < 100
    ensures |s| == 2 && IsDigit(s[0]) && IsDigit(s[1])
    ensures DigitsValue(s) == n
  {
    var s := [DigitChar(n / 10), DigitChar(n % 10)];
    assert s[..1] == [DigitChar(n / 10)];
    assert DigitsValue(s[..1]) == n / 10;
    s
  }

  /** Exactly four digits, zero-padded (`%04d`). */
  function Pad4(n: nat): (s: string)
    requires n < 10000
    ensures |s| == 4 && forall k :: 0 <= k < 4 ==> IsDigit(s[k])
    ensures DigitsValue(s) == n
  {
    var high, low := Pad2(n / 100), Pad2(n % 100);
    TwoMoreDigits(high, low);
    high + low
  }

  /** Reading two digits written after other digits. */
  lemma TwoMoreDigits(a: string, b: string)
    requires forall k :: 0 <= k < |a| ==> IsDigit(a[k])
    requires |b| == 2 && IsDigit(b[0]) && IsDigit(b[1])
    ensures forall k :: 0 <= k < |a + b| ==> IsDigit((a + b)[k])
    ensures DigitsValue(a + b) == DigitsValue(a) * 100 + DigitsValue(b)
  {
    var ab, a1 := a + b, a + b[..1];
    assert forall k :: 0 <= k < |ab| ==> IsDigit(ab[k]) by {
      forall k | 0 <= k < |ab| ensures IsDigit(ab[k]) {
        if k < |a| { assert ab[k] == a[k]; } else { assert ab[k] == b[k - |a|]; }
      }
    }
    assert ab[..|ab| - 1] == a1;
    assert a1[..|a1| - 1] == a;
    assert b[..1][..0] == [];
    assert b[..|b| - 1] == b[..1];
    assert DigitsValue(b[..1]) == DigitValue(b[0]);
    assert DigitsValue(ab) == DigitsValue(a1) * 10 + DigitValue(b[1]);
    assert DigitsValue(a1) == DigitsValue(a) * 10 + DigitValue(b[0]);
    assert DigitsValue(b) == DigitValue(b[0]) * 10 + DigitValue(b[1]);
  }

  /** `str.lower()` restricted to ASCII letters. */
  function LowerChar(c: char): (r: char)
    ensures !('A' <= r <= 'Z')
    ensures r == c || ('A' <= c <= 'Z' && r as int == c as int + 32)
  {
    if 'A' <= c <= 'Z' then (c as int + 32) as char else c
  }

  function Lower(s: string): (r: string)
    ensures |r| == |s|
    ensures forall k :: 0 <= k < |s| ==> r[k] == LowerChar(s[k])
  {
    seq(|s|, k requires 0 <= k < |s| => LowerChar(s[k]))
  }

  /** The sequences of `xss` written one after the other. */
  function Concat<T>(xss: seq<seq<T>>): seq<T>
  {
    if xss == [] then [] else Concat(xss[..|xss| - 1]) + xss[|xss| - 1]
  }

  /** Each line preceded by a newline: the tail of `"\n".join(lines)`. */
  function Prefixed(lines: seq<string>): string
  {
    if lines == [] then "" else "\n" + lines[0] + Prefixed(lines[1..])
  }

  /** Python's `"\n".join(lines)`: no newline before the first line and none
      after the last. */
  function Joined(lines: seq<string>): string
  {
    if lines == [] then "" else lines[0] + Prefixed(lines[1..])
  }

  lemma {:induction false} PrefixedAppend(a: seq<string>, b: seq<string>)
    ensures Prefixed(a + b) == Prefixed(a) + Prefixed(b)
    decreases |a|
  {
    if a != [] {
      PrefixedAppend(a[1..], b);
      assert (a + b)[1..] == a[1..] + b;
    } else {
      assert a + b == b;
    }
  }

  lemma AppendAssoc<T>(a: seq<T>, b: seq<T>, c: seq<T>)
    ensures a + (b + c) == (a + b) + c
  {
  }

  /** Joining a first line and five groups of lines. */
  lemma JoinedFive(h: string, a: seq<string>, b: seq<string>, c: seq<string>, d: seq<string>, e: seq<string>)
    ensures Joined([h] + (a + (b + (c + (d + e))))) ==
      h + (Prefixed(a) + (Prefixed(b) + (Prefixed(c) + (Prefixed(d) + Prefixed(e)))))
  {
    var rest := a + (b + (c + (d + e)));
    assert ([h] + rest)[1..] == rest;
    PrefixedAppend(a, b + (c + (d + e)));
    PrefixedAppend(b, c + (d + e));
    PrefixedAppend(c, d + e);
    PrefixedAppend(d, e);
  }

  /** The joined text ends with the last line: nothing is appended after it. */
  lemma {:induction false} JoinedEndsWithLast(lines: seq<string>)
    requires lines != []
    ensures |Joined(lines)| >= |lines[|lines| - 1]|
    ensures Joined(lines)[|Joined(lines)| - |lines[|lines| - 1]|..] == lines[|lines| - 1]
  {
    var n := |lines|;
    var init := lines[..n - 1];
    assert lines == init + [lines[n - 1]];
    if n == 1 {
    } else {
      assert lines[1..] == init[1..] + [lines[n - 1]];
      PrefixedAppend(init[1..], [lines[n - 1]]);
      assert Prefixed([lines[n - 1]]) == "\n" + lines[n - 1];
      assert Joined(lines) == init[0] + Prefixed(init[1..]) + "\n" + lines[n - 1];
    }
  }
}
