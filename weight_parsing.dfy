/**
 * Coercion of a raw form string to a threat weight: a non-empty string of
 * decimal digits is read as its value, anything else (the empty string, a
 * sign, a letter, a space) silently becomes 0.
 */
module WeightParsing {

  predicate IsDigit(ch: char)
  {
    '0' <= ch <= '9'
  }

  /** The string is non-empty and made only of decimal digits. */
  predicate IsDigits(s: string)
  {
    |s| > 0 && forall i :: 0 <= i < |s| ==> IsDigit(s[i])
  }

  function DigitValue(ch: char): (d: nat)
    requires IsDigit(ch)
    ensures d < 10
  {
    ch as int - '0' as int
  }

  function DigitChar(d: nat): (ch: char)
    requires d < 10
    ensures IsDigit(ch) && DigitValue(ch) == d
  {
    ('0' as int + d) as char
  }

  /** The value of a digit string read left to right, each digit shifting the previous ones by a factor ten. */
  function DecimalValue(s: string): nat
    requires forall i :: 0 <= i < |s| ==> IsDigit(s[i])
  {
    if s == [] then 0 else DecimalValue(s[..|s| - 1]) * 10 + DigitValue(s[|s| - 1])
  }

  /** The weight a form string stands for. */
  function ParseWeight(s: string): (w: nat)
    ensures !IsDigits(s) ==> w == 0
  {
    if IsDigits(s) then DecimalValue(s) else 0
  }

  /** The canonical decimal spelling of a number, without leading zeros. */
  function ShowDecimal(n: nat): (s: string)
    ensures IsDigits(s)
    ensures |s| > 1 ==> s[0] != '0'
  {
    if n < 10 then [DigitChar(n)] else ShowDecimal(n / 10) + [DigitChar(n % 10)]
  }

  /** Reading back the decimal spelling of a number gives the number. */
  lemma {:induction false} ParseShowRoundTrip(n: nat)
    ensures ParseWeight(ShowDecimal(n)) == n
  {
    var s := ShowDecimal(n);
    if n < 10 {
      assert s[..|s| - 1] == [];
      assert IsDigits(s);
      assert DecimalValue(s) == DecimalValue([]) * 10 + DigitValue(s[0]);
    } else {
      ParseShowRoundTrip(n / 10);
      assert s[..|s| - 1] == ShowDecimal(n / 10);
      assert DecimalValue(s) == DecimalValue(ShowDecimal(n / 10)) * 10 + n % 10;
    }
  }

  /** Leading zeros do not change the weight of a digit string. */
  lemma {:induction false} LeadingZero(s: string)
    requires IsDigits(s)
    ensures ParseWeight("0" + s) == ParseWeight(s)
  {
    LeadingZeroValue(s);
  }

  lemma {:induction false} LeadingZeroValue(s: string)
    requires forall i :: 0 <= i < |s| ==> IsDigit(s[i])
    ensures DecimalValue("0" + s) == DecimalValue(s)
  {
    if s != [] {
      var t := "0" + s;
      assert t[..|t| - 1] == "0" + s[..|s| - 1];
      LeadingZeroValue(s[..|s| - 1]);
    }
    else {
      assert DecimalValue("0") == DecimalValue("") * 10 + 0;
    }
  }

  /** A positive weight only comes from a digit string, and only a string of zeros gives weight 0. */
  lemma {:induction false} ZeroWeight(s: string)
    ensures ParseWeight(s) == 0 <==> !IsDigits(s) || forall i :: 0 <= i < |s| ==> s[i] == '0'
  {
    if IsDigits(s) {
      ZeroValue(s);
    }
  }

  lemma {:induction false} ZeroValue(s: string)
    requires forall i :: 0 <= i < |s| ==> IsDigit(s[i])
    ensures DecimalValue(s) == 0 <==> forall i :: 0 <= i < |s| ==> s[i] == '0'
  {
    if s != [] {
      var init := s[..|s| - 1];
      ZeroValue(init);
      assert forall i :: 0 <= i < |init| ==> init[i] == s[i];
    }
  }

  /** The reference coercions: "abc", "", "-3" and "0" all give 0, "7" gives 7 and "10" gives 10. */
  lemma ReferenceCoercions()
    ensures ParseWeight("abc") == 0 && ParseWeight("") == 0 && ParseWeight("-3") == 0
    ensures ParseWeight("0") == 0 && ParseWeight("7") == 7 && ParseWeight("10") == 10
  {
    assert !IsDigit('a') && !IsDigit('-');
    assert DecimalValue("1") == 1;
  }
}
