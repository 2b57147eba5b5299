/** Natural numbers written in decimal and read back. */
module Numerals {
  import opened Wrappers

  function Digit(d: nat): char
    requires d < 10
  {
    "0123456789"[d]
  }

  predicate IsDigit(c: char) {
    '0' <= c <= '9'
  }

  function DigitValue(c: char): (d: nat)
    requires IsDigit(c)
    ensures d < 10
  {
    c as int - '0' as int
  }

  lemma DigitReads(d: nat)
    requires d < 10
    ensures IsDigit(Digit(d)) && DigitValue(Digit(d)) == d
  {
  }

  function Decimal(n: nat): (s: string)
    ensures |s| > 0
  {
    if n < 10 then [Digit(n)] else Decimal(n / 10) + [Digit(n % 10)]
  }

  predicate AllDigits(s: string) {
    forall i | 0 <= i < |s| :: IsDigit(s[i])
  }

  function Value(s: string): nat
    requires AllDigits(s)
  {
    if s == "" then 0 else 10 * Value(s[..|s| - 1]) + DigitValue(s[|s| - 1])
  }

  /** What is written is read back. */
  lemma {:induction false} DecimalReads(n: nat)
    ensures AllDigits(Decimal(n)) && Value(Decimal(n)) == n
  {
    DigitReads(n % 10);
    if n < 10 {
      assert Decimal(n)[..0] == "";
    } else {
      DecimalReads(n / 10);
      assert Decimal(n)[..|Decimal(n)| - 1] == Decimal(n / 10);
    }
  }

  lemma DecimalInjective(a: nat, b: nat)
    requires Decimal(a) == Decimal(b)
    ensures a == b
  {
    DecimalReads(a);
    DecimalReads(b);
  }

  /** A number as a citation list may write it: an optional sign, then at least one digit. */
  function Atoi(s: string): Option<int> {
    if s == "" then None
    else if s[0] == '-' then Negated(Unsigned(s[1..]))
    else if s[0] == '+' then Unsigned(s[1..])
    else Unsigned(s)
  }

  function Unsigned(s: string): Option<int> {
    if s != "" && AllDigits(s) then Some(Value(s)) else None
  }

  function Negated(n: Option<int>): Option<int> {
    if n.Some? then Some(-n.value) else None
  }

  function Zeros(k: nat): (s: string)
    ensures |s| == k && forall i | 0 <= i < k :: s[i] == '0'
  {
    seq(k, _ => '0')
  }

  /** s is n in decimal, leading zeros allowed. */
  ghost predicate Padded(s: string, n: nat) {
    exists k :: s == Zeros(k) + Decimal(n)
  }

  /** And with a sign. */
  ghost predicate Writes(s: string, v: int) {
    || (v >= 0 && Padded(s, v))
    || (v >= 0 && s != "" && s[0] == '+' && Padded(s[1..], v))
    || (v <= 0 && s != "" && s[0] == '-' && Padded(s[1..], -v))
  }

  lemma {:induction false} PaddedReads(k: nat, n: nat)
    ensures var s := Zeros(k) + Decimal(n);
            s != "" && AllDigits(s) && Value(s) == n && IsDigit(s[0])
  {
    var s := Zeros(k) + Decimal(n);
    DigitReads(n % 10);
    DecimalReads(n);
    if n < 10 {
      assert s[..k] == Zeros(k);
      ZerosValue(k);
    } else {
      assert s[..|s| - 1] == Zeros(k) + Decimal(n / 10);
      PaddedReads(k, n / 10);
    }
  }

  lemma {:induction false} ZerosValue(k: nat)
    ensures AllDigits(Zeros(k)) && Value(Zeros(k)) == 0
  {
    if k > 0 {
      assert Zeros(k)[..k - 1] == Zeros(k - 1);
      ZerosValue(k - 1);
    }
  }

  lemma {:induction false} ReadIsPadded(s: string) returns (k: nat)
    requires s != "" && AllDigits(s)
    ensures s == Zeros(k) + Decimal(Value(s))
  {
    var init, c := s[..|s| - 1], s[|s| - 1];
    DigitOf(c);
    if init == "" {
      k := 0;
    } else {
      k := ReadIsPadded(init);
      var v := Value(init);
      if v == 0 {
        assert init == Zeros(k + 1);
        k := k + 1;
      } else {
        assert Value(s) == 10 * v + DigitValue(c) && Value(s) / 10 == v;
        assert Decimal(Value(s)) == Decimal(v) + [c];
      }
    }
  }

  lemma DigitOf(c: char)
    requires IsDigit(c)
    ensures Digit(DigitValue(c)) == c
  {
    assert "0123456789"[DigitValue(c)] == c;
  }

  lemma UnsignedExactly(s: string, n: nat)
    ensures Unsigned(s) == Some(n) <==> Padded(s, n)
    ensures Padded(s, n) ==> s != "" && IsDigit(s[0])
  {
    hide Decimal, Value;
    if Padded(s, n) {
      var k: nat :| s == Zeros(k) + Decimal(n);
      PaddedReads(k, n);
    }
    if Unsigned(s) == Some(n) {
      var k := ReadIsPadded(s);
    }
  }

  /** A text reads as a number exactly if it writes that number, with or without a sign and leading zeros. */
  lemma AtoiExactly(s: string, v: int)
    ensures Atoi(s) == Some(v) <==> Writes(s, v)
  {
    hide Padded, Value;
    var n := if v >= 0 then v else -v;
    UnsignedExactly(s, n);
    if s != "" {
      UnsignedExactly(s[1..], n);
    }
  }

  lemma AtoiReads(n: nat)
    ensures Atoi(Decimal(n)) == Some(n)
  {
    DecimalReads(n);
    assert IsDigit(Decimal(n)[0]);
  }
}
