/** Decimal notation. */
module Digits {
  predicate IsDigit(c: char) {
    '0' <= c <= '9'
  }

  predicate AllDigits(s: string) {
    forall k | 0 <= k < |s| :: IsDigit(s[k])
  }

  function DigitsValue(s: string): nat
    requires AllDigits(s)
  {
    if s == "" then 0 else 10 * DigitsValue(s[..|s| - 1]) + (s[|s| - 1] - '0') as nat
  }

  function Decimal(n: nat): (s: string)
    ensures s != "" && AllDigits(s) && DigitsValue(s) == n
  {
    if n < 10 then
      var s := [('0' as int + n) as char];
      assert s[..0] == "" && s[|s| - 1] == s[0];
      s
    else
      var head := Decimal(n / 10);
      var s := head + [('0' as int + n % 10) as char];
      assert s[..|s| - 1] == head;
      s
  }

  predicate AllZeros(s: string) {
    forall k | 0 <= k < |s| :: s[k] == '0'
  }

  /** A number can be written with zeros in front, and in no other way. */
  lemma {:induction false} DigitsAreZerosAndDecimal(s: string) returns (zeros: string)
    requires s != "" && AllDigits(s)
    ensures AllZeros(zeros) && s == zeros + Decimal(DigitsValue(s))
  {
    var head, last := s[..|s| - 1], s[|s| - 1];
    assert DigitsValue(s) == 10 * DigitsValue(head) + (last - '0') as nat;
    assert s == head + [last];
    hide Decimal, DigitsValue;
    if head == "" {
      OneDigit(last);
      zeros := head;
    } else {
      var value := DigitsValue(head);
      var before := DigitsAreZerosAndDecimal(head);
      if value == 0 {
        ZerosBeforeZero(before, head);
        OneDigit(last);
        zeros := head;
      } else {
        OneMoreDigit(value, last);
        zeros := before;
        assert (zeros + Decimal(value)) + [last] == zeros + (Decimal(value) + [last]);
      }
    }
  }

  lemma ZerosBeforeZero(zeros: string, s: string)
    requires AllZeros(zeros) && s == zeros + Decimal(0)
    ensures AllZeros(s)
  {
    assert Decimal(0) == ['0'];
  }

  lemma OneDigit(c: char)
    requires IsDigit(c)
    ensures Decimal((c - '0') as nat) == [c]
  {
  }

  lemma OneMoreDigit(n: nat, c: char)
    requires n > 0 && IsDigit(c)
    ensures Decimal(10 * n + (c - '0') as nat) == Decimal(n) + [c]
  {
  }

  lemma {:induction false} ZerosAddNothing(zeros: string, s: string)
    requires AllZeros(zeros) && AllDigits(s)
    ensures AllDigits(zeros + s) && DigitsValue(zeros + s) == DigitsValue(s)
    decreases |s|, |zeros|
  {
    if s != "" {
      assert (zeros + s)[..|zeros + s| - 1] == zeros + s[..|s| - 1];
      ZerosAddNothing(zeros, s[..|s| - 1]);
    } else if zeros != "" {
      assert (zeros + s)[..|zeros + s| - 1] == zeros[..|zeros| - 1] + s;
      ZerosAddNothing(zeros[..|zeros| - 1], s);
    }
  }
}
