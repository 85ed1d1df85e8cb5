/**
 * `ValidationUtils` (stokvel/utils.py): South African identity numbers (a
 * birth date and a Luhn check digit, the check digit scheme of ISO/IEC
 * 7812-1 Annex B), bank account numbers and contribution amounts.
 */
module ValidationUtils
{
  import opened Common
  import opened Strings
  import opened Dates

  /** The century rule for the two-digit birth year: 00-30 are the 2000s, 31-99 the 1900s. */
  function IdBirthYear(yy: nat): (year: int)
    requires yy < 100
    ensures 1931 <= year <= 2030
    ensures year % 100 == yy
  {
    if yy <= 30 then 2000 + yy else 1900 + yy
  }

  /** The first six digits are YYMMDD of a date that exists. */
  predicate IdDateValid(id: string)
    requires |id| == 13 && AllDigits(id)
  {
    var month, day := ParseDigits(id[2..4]), ParseDigits(id[4..6]);
    1 <= month <= 12 && 1 <= day <= 31 && day <= DaysInMonth(IdBirthYear(ParseTwoDigits(id[..2])), month)
  }

  /** `int` of a two-digit string, which is below one hundred. */
  function ParseTwoDigits(s: string): (n: nat)
    requires |s| == 2 && AllDigits(s)
    ensures n == ParseDigits(s) && n < 100
  {
    assert s[..|s| - 1] == s[..1] && s[..1][..0] == [];
    assert ParseDigits(s[..1]) == DigitValue(s[0]);
    ParseDigits(s)
  }

  /** The Luhn term of digit `d` at position `i`: even positions count once, odd positions are doubled with 9 cast out. */
  function LuhnTerm(i: nat, d: nat): (t: nat)
    requires d < 10
    ensures t < 10
  {
    if i % 2 == 0 then d else if 2 * d < 10 then 2 * d else 2 * d - 9
  }

  /** The sum of the Luhn terms of the first `n` digits. */
  function LuhnSum(id: string, n: nat): nat
    requires n <= |id| && AllDigits(id)
  {
    if n == 0 then 0 else LuhnSum(id, n - 1) + LuhnTerm(n - 1, DigitValue(id[n - 1]))
  }

  function CheckDigit(checksum: nat): (d: nat)
    ensures d < 10
  {
    (10 - checksum % 10) % 10
  }

  /** What `validate_south_african_id` accepts. */
  predicate IsValidSouthAfricanId(id: string)
  {
    |id| == 13 && IsDigits(id) && IdDateValid(id) && CheckDigit(LuhnSum(id, 12)) == DigitValue(id[12])
  }

  /**
   * `validate_south_african_id`: thirteen digits, a valid YYMMDD birth date,
   * and a last digit equal to the check digit of the first twelve.
   */
  method ValidateSouthAfricanId(idNumber: string) returns (valid: bool)
    ensures valid == IsValidSouthAfricanId(idNumber)
  {
    if idNumber == [] || |idNumber| != 13 {
      return false;
    }
    if !IsDigits(idNumber) {
      return false;
    }
    var year := ParseTwoDigits(idNumber[..2]);
    var fullYear := if year <= 30 then 2000 + year else 1900 + year;
    var month := ParseDigits(idNumber[2..4]);
    var day := ParseDigits(idNumber[4..6]);
    if month < 1 || month > 12 {
      return false;
    }
    if day < 1 || day > 31 {
      return false;
    }
    if !ValidDate(CalendarDate(fullYear, month, day)) {
      return false;
    }
    var checksum := 0;
    for i := 0 to 12
      invariant checksum == LuhnSum(idNumber, i)
    {
      var digit := DigitValue(idNumber[i]);
      if i % 2 == 0 {
        checksum := checksum + digit;
      } else {
        var doubled := digit * 2;
        checksum := checksum + (if doubled < 10 then doubled else doubled - 9);
      }
    }
    valid := CheckDigit(checksum) == DigitValue(idNumber[12]);
  }

  /** The check digit is the one that makes the Luhn sum of all thirteen digits a multiple of ten. */
  lemma CheckDigitCompletesLuhnSum(id: string)
    requires |id| == 13 && IsDigits(id)
    ensures CheckDigit(LuhnSum(id, 12)) == DigitValue(id[12]) <==> LuhnSum(id, 13) % 10 == 0
  {
    var c, d := LuhnSum(id, 12), DigitValue(id[12]);
    assert LuhnSum(id, 13) == c + d;
    assert c % 10 == 0 ==> CheckDigit(c) == 0;
    assert c % 10 != 0 ==> CheckDigit(c) == 10 - c % 10;
  }

  /** Doubling with 9 cast out sends different digits to different terms. */
  lemma LuhnTermInjective(i: nat, d: nat, e: nat)
    requires d < 10 && e < 10 && d != e
    ensures LuhnTerm(i, d) != LuhnTerm(i, e)
  {
  }

  /** Changing one digit changes the Luhn sum of the digits after it by the change in that digit's term. */
  lemma {:induction false} LuhnSumOneDigitChanged(a: string, b: string, j: nat, n: nat)
    requires |a| == |b| && AllDigits(a) && AllDigits(b) && j < n <= |a|
    requires forall k :: 0 <= k < |a| && k != j ==> a[k] == b[k]
    ensures LuhnSum(b, n) - LuhnSum(a, n) == LuhnTerm(j, DigitValue(b[j])) - LuhnTerm(j, DigitValue(a[j]))
  {
    if n - 1 == j {
      LuhnSumPrefixEqual(a, b, j);
    } else {
      LuhnSumOneDigitChanged(a, b, j, n - 1);
    }
  }

  lemma {:induction false} LuhnSumPrefixEqual(a: string, b: string, n: nat)
    requires AllDigits(a) && AllDigits(b) && n <= |a| && n <= |b|
    requires forall k :: 0 <= k < n ==> a[k] == b[k]
    ensures LuhnSum(a, n) == LuhnSum(b, n)
  {
    if n > 0 {
      LuhnSumPrefixEqual(a, b, n - 1);
    }
  }

  /** A Luhn sum that is a multiple of ten stops being one when a single digit changes. */
  lemma LuhnDetectsOneChangedDigit(a: string, b: string, j: nat)
    requires |a| == |b| && AllDigits(a) && AllDigits(b) && j < |a| && a[j] != b[j]
    requires forall k :: 0 <= k < |a| && k != j ==> a[k] == b[k]
    requires LuhnSum(a, |a|) % 10 == 0
    ensures LuhnSum(b, |b|) % 10 != 0
  {
    LuhnSumOneDigitChanged(a, b, j, |a|);
    LuhnTermInjective(j, DigitValue(a[j]), DigitValue(b[j]));
    NonZeroShiftLeavesMultipleOfTen(LuhnSum(a, |a|), LuhnSum(b, |b|) - LuhnSum(a, |a|));
  }

  lemma NonZeroShiftLeavesMultipleOfTen(x: int, shift: int)
    requires x % 10 == 0 && -10 < shift < 10 && shift != 0
    ensures (x + shift) % 10 != 0
  {
    var q := x / 10;
    assert x == 10 * q;
    if shift > 0 {
      assert (x + shift) / 10 == q;
    } else {
      assert (x + shift) / 10 == q - 1;
    }
  }

  /** The check digit catches every single mistyped digit: two valid numbers never differ in exactly one place. */
  lemma SingleDigitErrorDetected(id: string, typo: string, j: nat)
    requires IsValidSouthAfricanId(id)
    requires |typo| == 13 && IsDigits(typo) && j < 13 && typo[j] != id[j]
    requires forall k :: 0 <= k < 13 && k != j ==> typo[k] == id[k]
    ensures !IsValidSouthAfricanId(typo)
  {
    CheckDigitCompletesLuhnSum(id);
    CheckDigitCompletesLuhnSum(typo);
    LuhnDetectsOneChangedDigit(id, typo, j);
  }

  /** A number born on 1 January 1980 whose check digit is 7. */
  lemma ExampleIdIsValid()
    ensures IsValidSouthAfricanId("8001015009087")
  {
    var id := "8001015009087";
    assert id[..2] == "80" && id[2..4] == "01" && id[4..6] == "01";
    assert ParseDigits("80") == 80 by { assert "80"[..1] == "8"; }
    assert ParseDigits("01") == 1 by { assert "01"[..1] == "0"; }
    assert LuhnSum(id, 12) == 33;
  }

  /** `validate_bank_account_number`: after removing spaces, 8 to 12 digits and nothing else. */
  function ValidateBankAccountNumber(accountNumber: string): (valid: bool)
    ensures valid <==>
      (forall i :: 0 <= i < |accountNumber| ==> IsDigitChar(accountNumber[i]) || accountNumber[i] == ' ')
      && 8 <= |accountNumber| - Count(accountNumber, ' ') <= 12
  {
    RemoveSpacesKeepsDigits(accountNumber);
    if accountNumber == [] then false
    else
      var clean := RemoveChar(accountNumber, ' ');
      if !IsDigits(clean) then false
      else if |clean| < 8 || |clean| > 12 then false
      else true
  }

  lemma {:induction false} RemoveSpacesKeepsDigits(s: string)
    ensures |RemoveChar(s, ' ')| == |s| - Count(s, ' ')
    ensures AllDigits(RemoveChar(s, ' ')) <==> forall i :: 0 <= i < |s| ==> IsDigitChar(s[i]) || s[i] == ' '
  {
    if s != [] {
      var t := s[1..];
      RemoveSpacesKeepsDigits(t);
      var r := RemoveChar(t, ' ');
      assert forall i :: 1 <= i < |s| ==> s[i] == t[i - 1];
      assert (forall i :: 0 <= i < |s| ==> IsDigitChar(s[i]) || s[i] == ' ')
        <==> (IsDigitChar(s[0]) || s[0] == ' ') && (forall i :: 0 <= i < |t| ==> IsDigitChar(t[i]) || t[i] == ' ');
      if s[0] != ' ' {
        var whole := RemoveChar(s, ' ');
        assert whole == [s[0]] + r;
        if IsDigitChar(s[0]) && AllDigits(r) {
          forall i | 0 <= i < |whole|
            ensures IsDigitChar(whole[i])
          {
            if i > 0 {
              assert whole[i] == r[i - 1];
            }
          }
        }
        if AllDigits(whole) {
          assert IsDigitChar(whole[0]);
          forall i | 0 <= i < |r|
            ensures IsDigitChar(r[i])
          {
            assert r[i] == whole[i + 1];
          }
        }
      }
    }
  }

  /** Spaces are ignored: a number and the same number without spaces are judged alike. */
  lemma BankAccountIgnoresSpaces(accountNumber: string)
    ensures ValidateBankAccountNumber(accountNumber) == ValidateBankAccountNumber(RemoveChar(accountNumber, ' '))
  {
    var clean := RemoveChar(accountNumber, ' ');
    RemoveSpacesKeepsDigits(accountNumber);
    RemoveSpacesKeepsDigits(clean);
    NoSpacesCount(clean);
    NoSpacesRemoveNothing(clean);
  }

  lemma {:induction false} NoSpacesCount(s: string)
    requires forall i :: 0 <= i < |s| ==> s[i] != ' '
    ensures Count(s, ' ') == 0
  {
    if s != [] {
      NoSpacesCount(s[1..]);
    }
  }

  lemma {:induction false} NoSpacesRemoveNothing(s: string)
    requires forall i :: 0 <= i < |s| ==> s[i] != ' '
    ensures RemoveChar(s, ' ') == s
  {
    if s != [] {
      NoSpacesRemoveNothing(s[1..]);
    }
  }

  /** The outcome of `validate_contribution_amount`, checked in this order. */
  datatype AmountCheck = ValidAmount | NotPositive | BelowMinimum(minimum: Money) | TooLarge
  {
    /** The message returned with the outcome; how the minimum is printed is not modelled. */
    function Message(): string
    {
      match this
      case ValidAmount => "Valid amount"
      case NotPositive => "Amount must be greater than zero"
      case BelowMinimum(_) => "Amount must be at least R"
      case TooLarge => "Amount seems unreasonably large"
    }
  }

  const MAX_REASONABLE_AMOUNT: Money := 1000000.0

  /**
   * `validate_contribution_amount`: positive, at least the minimum when one
   * is given and non-zero, and at most one million.
   */
  function ValidateContributionAmount(amount: Money, minAmount: Option<Money>): (r: AmountCheck)
    ensures r.ValidAmount? <==>
      0.0 < amount <= MAX_REASONABLE_AMOUNT && (!TruthyMoney(minAmount) || amount >= minAmount.value)
    ensures r.NotPositive? <==> amount <= 0.0
    ensures r.BelowMinimum? ==> 0.0 < amount < r.minimum && minAmount == Some(r.minimum)
    ensures r.TooLarge? ==> amount > MAX_REASONABLE_AMOUNT
  {
    if amount <= 0.0 then NotPositive
    else if TruthyMoney(minAmount) && amount < minAmount.value then BelowMinimum(minAmount.value)
    else if amount > MAX_REASONABLE_AMOUNT then TooLarge
    else ValidAmount
  }

  /** A minimum above the one-million ceiling makes every amount fail. */
  lemma MinimumAboveCeilingRejectsAll(amount: Money, minimum: Money)
    requires minimum > MAX_REASONABLE_AMOUNT
    ensures !ValidateContributionAmount(amount, Some(minimum)).ValidAmount?
  {
  }
}
