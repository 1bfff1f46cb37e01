// Decimal numerals, as the strings that number the virtual nodes of core/hash/consistenthash.go.
module Decimal {

  function Itoa(i: nat): string {
    if i < 10 then [('0' as int + i) as char] else Itoa(i / 10) + Itoa(i % 10)
  }

  // Reading a numeral digit by digit.
  function Value(s: string): int {
    if s == "" then 0 else 10 * Value(s[..|s| - 1]) + (s[|s| - 1] as int - '0' as int)
  }

  ghost predicate Digits(s: string) {
    forall k :: 0 <= k < |s| ==> '0' <= s[k] <= '9'
  }

  // The numeral of i: digits without a leading zero, unless it is the only one.
  ghost predicate IsDecimal(s: string, i: nat) {
    s != "" && Digits(s) && (|s| > 1 ==> s[0] != '0') && Value(s) == i
  }

  lemma {:induction false} ItoaIsDecimal(i: nat)
    ensures IsDecimal(Itoa(i), i) && (i > 0 ==> Itoa(i)[0] != '0')
  {
    if i < 10 {
      ShortNumeral(Itoa(i)[0], i);
    } else {
      hide Itoa;
      ItoaIsDecimal(i / 10);
      var c := ItoaStep(i);
      OneMore(Itoa(i / 10), i / 10, c, i % 10);
    }
  }

  lemma ShortNumeral(c: char, i: nat)
    requires i < 10 && c as int == '0' as int + i
    ensures IsDecimal([c], i)
  {
    assert [c][..0] == "";
    assert Value([c]) == i;
  }

  lemma ItoaStep(i: nat) returns (c: char)
    requires i >= 10
    ensures Itoa(i) == Itoa(i / 10) + [c] && c as int - '0' as int == i % 10
  {
    c := Itoa(i % 10)[0];
  }

  lemma OneMore(s: string, q: nat, c: char, d: nat)
    requires IsDecimal(s, q) && s[0] != '0' && d < 10 && c as int - '0' as int == d
    ensures IsDecimal(s + [c], 10 * q + d)
  {
    assert (s + [c])[..|s|] == s;
  }

  lemma OneDigit(s: string, i: nat)
    requires IsDecimal(s, i) && i < 10
    ensures |s| == 1
  {
    if |s| > 1 {
      AtLeastOne(s[..|s| - 1]);
    }
  }

  lemma {:induction false} AtLeastOne(s: string)
    requires s != "" && Digits(s) && s[0] != '0'
    ensures Value(s) >= 1
  {
    if |s| > 1 {
      AtLeastOne(s[..|s| - 1]);
    } else {
      assert s[..0] == "";
    }
  }

  // A number has one numeral, and a numeral one number.
  lemma {:induction false} DecimalUnique(s: string, t: string, i: nat)
    requires IsDecimal(s, i) && IsDecimal(t, i)
    ensures s == t
    decreases |s|
  {
    if i < 10 {
      OneDigit(s, i);
      OneDigit(t, i);
      assert s[..0] == "" && t[..0] == "";
      assert s == [s[0]] && t == [t[0]];
    } else {
      LongNumeral(s, i);
      LongNumeral(t, i);
      DecimalUnique(s[..|s| - 1], t[..|t| - 1], i / 10);
      assert s == s[..|s| - 1] + [s[|s| - 1]] && t == t[..|t| - 1] + [t[|t| - 1]];
    }
  }

  lemma LongNumeral(s: string, i: nat)
    requires IsDecimal(s, i) && i >= 10
    ensures |s| > 1 && IsDecimal(s[..|s| - 1], i / 10) && s[|s| - 1] as int - '0' as int == i % 10
  {
    assert '0' <= s[|s| - 1] <= '9';
    assert |s| == 1 ==> s[..|s| - 1] == "" && Value(s) < 10;
    if |s| > 1 {
      AtLeastOne(s[..|s| - 1]);
    }
  }

  lemma ItoaInjective(i: nat, j: nat)
    requires Itoa(i) == Itoa(j)
    ensures i == j
  {
    ItoaIsDecimal(i);
    ItoaIsDecimal(j);
  }
}
