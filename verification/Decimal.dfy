/** Decimal notation, as used in cursors and in SGR sequences. */
module Decimal {
  import opened Wrappers

  predicate IsDigit(c: char) { '0' <= c <= '9' }

  function DigitChar(d: nat): (c: char)
    requires d < 10
    ensures IsDigit(c) && DigitValue(c) == d
  {
    '0' + d as char
  }

  function DigitValue(c: char): (d: nat)
    requires IsDigit(c)
    ensures d < 10
  {
    (c - '0') as nat
  }

  /** The shortest decimal notation. */
  function Print(n: nat): (s: string)
    ensures |s| > 0 && forall i :: 0 <= i < |s| ==> IsDigit(s[i])
  {
    if n < 10 then [DigitChar(n)] else Print(n / 10) + [DigitChar(n % 10)]
  }

  /** Reads digits from the left, continuing from `acc`. */
  function Accumulate(acc: nat, s: string): Option<nat>
    decreases |s|
  {
    if s == "" then Some(acc)
    else if IsDigit(s[0]) then Accumulate(10 * acc + DigitValue(s[0]), s[1..])
    else None
  }

  function Parse(s: string): Option<nat> { if s == "" then None else Accumulate(0, s) }

  lemma {:induction false} AccumulateAppend(acc: nat, s: string, c: char)
    requires IsDigit(c)
    ensures Accumulate(acc, s + [c])
         == (match Accumulate(acc, s) case None => None case Some(n) => Some(10 * n + DigitValue(c)))
    decreases |s|
  {
    if s == "" {
      assert [c][1..] == "" && s + [c] == [c];
    } else {
      assert (s + [c])[1..] == s[1..] + [c];
      if IsDigit(s[0]) { AccumulateAppend(10 * acc + DigitValue(s[0]), s[1..], c); }
    }
  }

  lemma {:induction false} ParsePrint(n: nat)
    ensures Parse(Print(n)) == Some(n)
  {
    if n < 10 {
      assert Print(n) == [DigitChar(n)] && [DigitChar(n)][1..] == "";
      assert Accumulate(0, [DigitChar(n)]) == Accumulate(n, "");
    } else {
      ParsePrint(n / 10);
      AccumulateAppend(0, Print(n / 10), DigitChar(n % 10));
    }
  }
}
