/** Bytes, the protocol's marker bytes, decimal numbers as the protocol writes them, and powers of two. */
module Bytes {

  newtype Byte = b: int | 0 <= b < 256

  const CR: Byte := 13
  const LF: Byte := 10
  const PLUS: Byte := 43
  const MINUS: Byte := 45
  const COLON: Byte := 58
  const DOLLAR: Byte := 36
  const STAR: Byte := 42
  const ZERO: Byte := 48
  const ONE: Byte := 49

  /** isdigit() in the C locale. */
  predicate IsDigit(c: Byte) {
    48 <= c <= 57
  }

  /** One or more digits; leading zeros are allowed. */
  predicate IsNumeral(s: seq<Byte>) {
    |s| > 0 && forall c | c in s :: IsDigit(c)
  }

  /** The number that a run of digits denotes. */
  function DecimalValue(s: seq<Byte>): nat
    requires forall c | c in s :: IsDigit(c)
  {
    if s == [] then 0
    else
      var last := s[|s| - 1];
      assert IsDigit(last);
      10 * DecimalValue(s[..|s| - 1]) + (last as int - 48)
  }

  /** The longest prefix of digits. */
  function DigitPrefix(s: seq<Byte>): (r: seq<Byte>)
    ensures r <= s
    ensures forall c | c in r :: IsDigit(c)
    ensures |r| < |s| ==> !IsDigit(s[|r|])
  {
    if s == [] || !IsDigit(s[0]) then [] else [s[0]] + DigitPrefix(s[1..])
  }

  /** atoi() on text that starts with a digit: the digits up to the first other byte. */
  function Atoi(s: seq<Byte>): nat {
    DecimalValue(DigitPrefix(s))
  }

  /** atoi() stops at the byte after the digits, whatever follows that byte. */
  lemma {:induction false} AtoiReadsNumeral(s: seq<Byte>, digits: seq<Byte>)
    requires IsNumeral(digits) && digits < s && !IsDigit(s[|digits|])
    ensures Atoi(s) == DecimalValue(digits)
  {
    var r := DigitPrefix(s);
    assert r == digits;
  }

  /** The value of digits, place by place. */
  lemma {:induction false} PlaceValue(s: seq<Byte>, t: seq<Byte>)
    requires (forall c | c in s :: 48 <= c <= 57) && forall c | c in t :: 48 <= c <= 57
    ensures forall c | c in s + t :: IsDigit(c)
    ensures DecimalValue(s + t) == DecimalValue(s) * Pow10(|t|) + DecimalValue(t)
    ensures |t| == 1 ==> DecimalValue(t) == t[0] as int - 48
    decreases |t|
  {
    if t == [] {
      assert s + t == s;
    } else {
      var init, last := t[..|t| - 1], t[|t| - 1];
      forall c | c in init
        ensures 48 <= c <= 57
      {
        assert c in t;
      }
      PlaceValue(s, init);
      assert (s + t)[..|s + t| - 1] == s + init && (s + t)[|s + t| - 1] == last && last in t;
      Times10(DecimalValue(s), Pow10(|init|), DecimalValue(init), last as int - 48);
    }
  }

  lemma Times10(x: int, p: int, y: int, d: int)
    ensures 10 * (x * p + y) + d == x * (10 * p) + (10 * y + d)
  {
  }

  function Pow10(k: nat): nat {
    if k == 0 then 1 else 10 * Pow10(k - 1)
  }

  /** printf("%d") of a non-negative number. */
  function Decimal(n: nat): (r: seq<Byte>)
    ensures IsNumeral(r)
    ensures |r| > 1 ==> r[0] != ZERO
    ensures r[0] == ZERO ==> n == 0
  {
    var d := (48 + n % 10) as Byte;
    if n < 10 then [d] else Decimal(n / 10) + [d]
  }

  /** Printing and reading decimals are inverse to each other. */
  lemma {:induction false} DecimalRoundTrip(n: nat)
    ensures DecimalValue(Decimal(n)) == n
  {
    if n >= 10 {
      DecimalRoundTrip(n / 10);
      var r := Decimal(n);
      assert r[..|r| - 1] == Decimal(n / 10);
    }
  }

  /** printf("%ld"). */
  function PrintInt(n: int): seq<Byte> {
    if n < 0 then [MINUS] + Decimal(-n) else Decimal(n)
  }

  /** A numeral, perhaps with a minus sign in front. */
  predicate IsIntText(s: seq<Byte>) {
    IsNumeral(s) || (s != [] && s[0] == MINUS && IsNumeral(s[1..]))
  }

  function IntValue(s: seq<Byte>): int
    requires IsIntText(s)
  {
    if s[0] == MINUS then 0 - DecimalValue(s[1..]) as int else DecimalValue(s) as int
  }

  /** Every number is read back from its text. */
  lemma {:induction false} PrintIntRoundTrip(n: int)
    ensures IsIntText(PrintInt(n)) && IntValue(PrintInt(n)) == n
  {
    if n < 0 {
      DecimalRoundTrip(-n);
      assert PrintInt(n)[1..] == Decimal(-n);
    } else {
      DecimalRoundTrip(n);
      assert PrintInt(n)[0] in PrintInt(n);
    }
  }

  function Pow2(k: nat): (r: nat)
    ensures r > 0
  {
    if k == 0 then 1 else 2 * Pow2(k - 1)
  }

  lemma {:induction false} Pow2Sum(j: nat, k: nat)
    ensures Pow2(j + k) == Pow2(j) * Pow2(k)
  {
    if k > 0 {
      Pow2Sum(j, k - 1);
    }
  }

  /** Pieces of text, one after the other. */
  function Joined(pieces: seq<seq<Byte>>): seq<Byte> {
    if pieces == [] then [] else pieces[0] + Joined(pieces[1..])
  }

  lemma NothingJoined()
    ensures Joined([]) == []
  {
  }

  lemma OneJoined(piece: seq<Byte>)
    ensures Joined([piece]) == piece
  {
    assert [piece][1..] == [] && piece + [] == piece;
  }

  lemma {:induction false} JoinedConcat(a: seq<seq<Byte>>, b: seq<seq<Byte>>)
    ensures Joined(a + b) == Joined(a) + Joined(b)
    decreases |a|
  {
    if a == [] {
      assert a + b == b;
    } else {
      JoinedConcat(a[1..], b);
      assert (a + b)[1..] == a[1..] + b;
    }
  }
}
