/** Go's encoding/hex: lower-case digits out, either case in. */
module Hex {
  import opened Numbers

  function Digit(n: nat): char
    requires n < 16
  {
    if n < 10 then '0' + n as char else 'a' + (n - 10) as char
  }

  predicate IsDigit(c: char) {
    '0' <= c <= '9' || 'a' <= c <= 'f' || 'A' <= c <= 'F'
  }

  function Value(c: char): (n: nat)
    requires IsDigit(c)
    ensures n < 16
  {
    if c <= '9' then (c - '0') as nat else if c <= 'F' then (c - 'A') as nat + 10 else (c - 'a') as nat + 10
  }

  function Lower(c: char): char {
    if 'A' <= c <= 'Z' then c - 'A' + 'a' else c
  }

  function ToLower(s: string): (r: string)
    ensures |r| == |s| && forall i :: 0 <= i < |s| ==> r[i] == Lower(s[i])
  {
    seq(|s|, i requires 0 <= i < |s| => Lower(s[i]))
  }

  /** The k-th capital becomes the k-th small letter, and nothing else changes. */
  lemma LowerByAlphabet(c: char, k: nat)
    ensures k < 26 && c as int == 65 + k ==> Lower(c) as int == 97 + k
    ensures !(65 <= c as int < 65 + 26) ==> Lower(c) == c
  {
  }

  lemma LowerTwice(s: string)
    ensures ToLower(ToLower(s)) == ToLower(s)
  {
  }

  /** hex.EncodeToString */
  function Encode(b: seq<byte>): string {
    if b == [] then [] else [Digit(b[0] / 16), Digit(b[0] % 16)] + Encode(b[1..])
  }

  /** hex.DecodeString: the bytes before the first error, and whether there was none. */
  function Decode(s: string): (seq<byte>, bool) {
    if |s| < 2 then ([], s == [])
    else if !IsDigit(s[0]) || !IsDigit(s[1]) then ([], false)
    else
      var (rest, ok) := Decode(s[2..]);
      ([16 * Value(s[0]) + Value(s[1])] + rest, ok)
  }

  lemma {:induction false} EncodeDecode(b: seq<byte>)
    ensures |Encode(b)| == 2 * |b|
    ensures Decode(Encode(b)) == (b, true)
  {
    if b != [] {
      EncodeDecode(b[1..]);
      assert Encode(b)[2..] == Encode(b[1..]);
      assert b == [b[0]] + b[1..];
    }
  }

  lemma DigitPair(a: char, b: char)
    requires IsDigit(a) && IsDigit(b)
    ensures var n := 16 * Value(a) + Value(b);
      n < 256 && Digit(n / 16) == Lower(a) && Digit(n % 16) == Lower(b)
  {
  }

  /** Decoding forgets nothing but the case of the digits. */
  lemma {:induction false} DecodeEncode(s: string)
    requires Decode(s).1
    ensures |s| == 2 * |Decode(s).0|
    ensures Encode(Decode(s).0) == ToLower(s)
  {
    hide Digit, Value, Lower;
    if s != [] {
      DigitPair(s[0], s[1]);
      DecodeEncode(s[2..]);
      var b := Decode(s).0;
      assert b[1..] == Decode(s[2..]).0;
      assert ToLower(s) == [Lower(s[0]), Lower(s[1])] + ToLower(s[2..]);
    }
  }
}
