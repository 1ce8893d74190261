/** Decimal numbers in text, and text joined with colons. */
module Texts {
  import opened Numbers

  function Digit(n: nat): char
    requires n < 10
  {
    '0' + n as char
  }

  /** fmt's %d. */
  function Decimal(n: nat): (s: string)
    ensures s != [] && ':' !in s
  {
    if n < 10 then [Digit(n)] else Decimal(n / 10) + [Digit(n % 10)]
  }

  /** The number a string of decimal digits denotes. */
  function FromDecimal(s: string): int {
    if s == [] then 0 else 10 * FromDecimal(s[..|s| - 1]) + (s[|s| - 1] as int - '0' as int)
  }

  /** A number is written in decimal digits, most significant first and with none to spare. */
  lemma {:induction false} DecimalReadsBack(n: nat)
    ensures FromDecimal(Decimal(n)) == n
    ensures forall c :: c in Decimal(n) ==> '0' <= c <= '9'
    ensures n > 0 ==> Decimal(n)[0] != '0'
  {
    if n >= 10 {
      DecimalReadsBack(n / 10);
      assert Decimal(n)[..|Decimal(n)| - 1] == Decimal(n / 10);
    } else {
      assert Decimal(n)[..0] == [];
    }
  }

  lemma {:induction false} DecimalInjective(a: nat, b: nat)
    requires Decimal(a) == Decimal(b)
    ensures a == b
  {
    LastDigit(a);
    LastDigit(b);
    if a >= 10 {
      DecimalInjective(a / 10, b / 10);
    }
  }

  lemma LastDigit(a: nat)
    ensures var s := Decimal(a); s[|s| - 1] == Digit(a % 10)
    ensures a < 10 ==> |Decimal(a)| == 1
    ensures a >= 10 ==> |Decimal(a)| > 1 && Decimal(a)[..|Decimal(a)| - 1] == Decimal(a / 10)
  {
  }

  /** fmt's %d of a signed number. */
  function SignedDecimal(n: int): (s: string)
    ensures s != [] && ':' !in s
  {
    if n < 0 then "-" + Decimal(-n) else Decimal(n)
  }

  lemma {:induction false} DecimalHasDigits(n: nat)
    ensures '-' !in Decimal(n)
  {
    if n >= 10 {
      DecimalHasDigits(n / 10);
    }
  }

  lemma SignedDecimalInjective(a: int, b: int)
    requires SignedDecimal(a) == SignedDecimal(b)
    ensures a == b
  {
    DecimalHasDigits(Abs(a));
    DecimalHasDigits(Abs(b));
    assert a < 0 ==> SignedDecimal(a)[0] == '-' && SignedDecimal(a)[1..] == Decimal(-a);
    assert b < 0 ==> SignedDecimal(b)[0] == '-' && SignedDecimal(b)[1..] == Decimal(-b);
    DecimalInjective(Abs(a), Abs(b));
  }

  lemma NoColonAfter(a: string, x: string, i: int)
    requires ':' !in x && |a| < i < |a| + 1 + |x|
    ensures (a + ":" + x)[i] != ':'
  {
    assert (a + ":" + x)[i] == x[i - |a| - 1];
  }

  // The last colon splits a string in one way.
  lemma LastColon(a: string, x: string, b: string, y: string)
    requires a + ":" + x == b + ":" + y && ':' !in x && ':' !in y
    ensures a == b && x == y
  {
    var s, t := a + ":" + x, b + ":" + y;
    assert s[|a|] == ':' && t[|b|] == ':';
    if |a| < |b| {
      NoColonAfter(a, x, |b|);
    } else if |b| < |a| {
      NoColonAfter(b, y, |a|);
    }
    assert s[..|a|] == a && t[..|b|] == b;
    assert s[|a| + 1..] == x && t[|b| + 1..] == y;
  }

  lemma SamePrefix(p: string, a: string, b: string)
    ensures p + a <= p + b <==> a <= b
  {
    if a <= b {
      assert p + b == p + a + b[|a|..];
    }
    if p + a <= p + b {
      forall i | 0 <= i < |a|
        ensures a[i] == b[i]
      {
        assert (p + a)[|p| + i] == (p + b)[|p| + i];
      }
    }
  }

  // Beyond t, only the two separators of t:x:y are colons, when neither x nor y holds one.
  lemma NoOtherColon(t: string, x: string, y: string, n: int)
    requires ':' !in x && ':' !in y && |t| < n < |t| + 2 + |x| + |y| && n != |t| + 1 + |x|
    ensures (t + ":" + x + ":" + y)[n] != ':'
  {
    var s := t + ":" + x + ":" + y;
    if n < |t| + 1 + |x| {
      assert s[n] == x[n - |t| - 1];
    } else {
      assert s[n] == y[n - |t| - |x| - 2];
    }
  }
}
