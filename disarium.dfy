/** is_disarium: a number whose decimal digits, each raised to its 1-based position from the
    left, sum to the number itself. */
module Disarium {
  import opened Results
  import opened PyText
  import PyInt

  /** The sum of ds[i] ** (i + 1) over the digits. */
  function DigitPowerSum(ds: seq<nat>): nat {
    if ds == [] then 0
    else
      PyInt.PowNonNegative(ds[|ds| - 1], |ds|);
      DigitPowerSum(ds[..|ds| - 1]) + PyInt.Pow(ds[|ds| - 1], |ds|) as nat
  }

  /** The power sum of the decimal digits of num. */
  function DisariumSum(num: nat): nat {
    DigitPowerSum(Digits(num))
  }

  /** int(c) on one character: its digit value, or ValueError for anything else. */
  function CharToInt(c: char): (r: Result<nat, string>)
    ensures r.Ok? <==> IsDigit(c)
    ensures r.Ok? ==> r.value == DigitValue(c)
  {
    if IsDigit(c) then Ok(DigitValue(c)) else Err("invalid literal for int()")
  }

  /** is_disarium(num): walks str(num) from the left, adding digit ** position. For a
      negative number the first character is '-', on which int() raises ValueError. */
  method IsDisarium(num: int) returns (r: Result<bool, string>)
    ensures num >= 0 ==> r == Ok(DisariumSum(num) == num)
    ensures num < 0 ==> r.Err?
  {
    var total: nat := 0;
    var numStr := IntToString(num);
    ghost var ds := if num >= 0 then Digits(num) else [];
    for i := 0 to |numStr|
      invariant num >= 0 ==> total == DigitPowerSum(ds[..i])
      invariant num < 0 ==> i == 0
    {
      assert num < 0 ==> numStr[0] == '-';
      var digit := CharToInt(numStr[i]);
      if digit.Err? {
        return Err(digit.error);
      }
      assert num >= 0 ==> digit.value == ds[i];
      assert num >= 0 ==> ds[..i + 1][..i] == ds[..i];
      PyInt.PowNonNegative(digit.value, i + 1);
      total := total + PyInt.Pow(digit.value, i + 1) as nat;
    }
    assert num >= 0 ==> ds[..|numStr|] == ds;
    r := Ok(total == num);
  }

  /** Every single digit is a Disarium number, since d ** 1 == d. */
  lemma SingleDigits(d: nat)
    requires d < 10
    ensures DisariumSum(d) == d
  {
    assert Digits(d) == [d];
    assert [d][..0] == [];
    assert PyInt.Pow(d, 1) == d * PyInt.Pow(d, 0) == d;
    assert DigitPowerSum([d]) == DigitPowerSum([]) + PyInt.Pow(d, 1);
  }

  /** 89 == 8 ** 1 + 9 ** 2, and 135 == 1 ** 1 + 3 ** 2 + 5 ** 3. */
  lemma TwoAndThreeDigitExamples()
    ensures DisariumSum(89) == 89
    ensures DisariumSum(135) == 135
  {
    assert Digits(89) == [8, 9];
    assert [8, 9][..1] == [8] && [8][..0] == [];
    assert Digits(135) == [1, 3, 5];
    assert [1, 3, 5][..2] == [1, 3] && [1, 3][..1] == [1] && [1][..0] == [];
  }

  /** 10 is not: 1 ** 1 + 0 ** 2 == 1. */
  lemma TenIsNot()
    ensures DisariumSum(10) == 1
  {
    assert Digits(10) == [1, 0];
    assert [1, 0][..1] == [1] && [1][..0] == [];
  }
}
