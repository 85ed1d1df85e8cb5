/**
 * The field and form validators of the accounts app's forms
 * (accounts/forms.py). An empty field is passed through unless the
 * validator demands a value; phone numbers come back normalised.
 */
module AccountsForms
{
  import opened Common
  import opened Strings
  import opened Dates
  import opened AccountsModels
  import AccountsUtils
  import ValidationUtils
  import StokvelForms

  // ----- UserRegistrationForm and UserProfileForm -----

  /** Another user already has the address. */
  predicate EmailRegistered(users: seq<User>, email: string)
  {
    exists k :: 0 <= k < |users| && users[k].email == email
  }

  /** `UserRegistrationForm.clean_email`: a given address must not be registered yet. */
  function CleanRegistrationEmail(users: seq<User>, email: string): (r: Result<string>)
    ensures r.Ok? <==> email == [] || !EmailRegistered(users, email)
    ensures r.Ok? ==> r.value == email
    ensures r.Err? ==> r.error == ValidationError("This email address is already registered.")
  {
    if email != [] && EmailRegistered(users, email) then Err(ValidationError("This email address is already registered."))
    else Ok(email)
  }

  /** `UserProfileForm.clean_email`: keeping one's own address is always allowed. */
  function CleanProfileEmail(users: seq<User>, current: User, email: string): (r: Result<string>)
    ensures email == current.email ==> r == Ok(email)
    ensures r.Ok? <==> email == [] || email == current.email || !EmailRegistered(users, email)
    ensures r.Err? ==> r.error == ValidationError("This email address is already in use.")
  {
    if email != [] && email != current.email && EmailRegistered(users, email) then Err(ValidationError("This email address is already in use."))
    else Ok(email)
  }

  /**
   * `clean_phone_number` and `clean_emergency_contact_phone`: an empty
   * number passes as it is; any other must be accepted by the phone
   * validator and is replaced by its normalised form, or refused with the
   * validator's message.
   */
  function CleanPhone(phone: string): (r: Result<string>)
    ensures phone == [] ==> r == Ok(phone)
    ensures phone != [] ==> (r.Ok? <==> AccountsUtils.ValidateSouthAfricanPhone(phone).0)
    ensures r.Ok? && phone != [] ==> |r.value| == 12 && r.value[..3] == "+27" && AllDigits(r.value[1..])
    ensures r.Err? ==> r.error == ValidationError(AccountsUtils.ValidateSouthAfricanPhone(phone).1)
  {
    if phone == [] then Ok(phone)
    else
      var checked := AccountsUtils.ValidateSouthAfricanPhone(phone);
      if checked.0 then Ok(checked.1) else Err(ValidationError(checked.1))
  }

  /** Cleaning a cleaned phone number changes nothing. */
  lemma CleanPhoneIsIdempotent(phone: string)
    requires CleanPhone(phone).Ok?
    ensures CleanPhone(CleanPhone(phone).value) == CleanPhone(phone)
  {
    if phone != [] {
      AccountsUtils.NormalisedPhoneIsStable(phone);
    }
  }

  /** The youngest and oldest ages accepted, in days. */
  const MIN_AGE_DAYS := 18 * 365
  const MAX_AGE_DAYS := 100 * 365

  /**
   * `UserRegistrationForm.clean_date_of_birth`: at least 18 × 365 and at most
   * 100 × 365 days before today. The two bounds are today minus a
   * `timedelta`, which raises OverflowError before the first of January of
   * year 1.
   */
  function CleanDateOfBirth(dob: Option<Date>, today: Date): (r: Result<Option<Date>>)
    ensures dob.None? ==> r == Ok(dob)
    ensures r.Ok? ==> r.value == dob
    ensures r.Ok? && dob.Some? ==> MIN_AGE_DAYS <= DaysBetween(dob.value, today) <= MAX_AGE_DAYS
    ensures dob.Some? && Ordinal(today) - MAX_AGE_DAYS >= 1 ==>
      (r.Ok? <==> MIN_AGE_DAYS <= DaysBetween(dob.value, today) <= MAX_AGE_DAYS)
  {
    if dob.None? then Ok(dob)
    else
      var minAgeDay := Ordinal(today) - MIN_AGE_DAYS;
      if minAgeDay < 1 then Err(OverflowError("date value out of range"))
      else if Ordinal(dob.value) > minAgeDay then Err(ValidationError("You must be at least 18 years old to register."))
      else
        var maxAgeDay := Ordinal(today) - MAX_AGE_DAYS;
        if maxAgeDay < 1 then Err(OverflowError("date value out of range"))
        else if Ordinal(dob.value) < maxAgeDay then Err(ValidationError("Please enter a valid date of birth."))
        else Ok(dob)
  }

  /** A date of birth accepted today is still at least 18 years back later on, as long as it stays within 100. */
  lemma AdultStaysAdult(dob: Date, today: Date, later: Date)
    requires CleanDateOfBirth(Some(dob), today).Ok? && Le(today, later)
    requires Ordinal(later) - MAX_AGE_DAYS <= Ordinal(dob)
    ensures CleanDateOfBirth(Some(dob), later).Ok?
  {
    OrdinalOrder(today, later);
  }

  /** `UserProfileForm.clean_id_number`: a given ID number must be a valid South African one. */
  function CleanIdNumber(idNumber: string): (r: Result<string>)
    ensures r.Ok? <==> idNumber == [] || ValidationUtils.IsValidSouthAfricanId(idNumber)
    ensures r.Ok? ==> r.value == idNumber
    ensures r.Ok? && idNumber != [] ==> |idNumber| == 13 && AllDigits(idNumber)
  {
    if idNumber != [] && !ValidationUtils.IsValidSouthAfricanId(idNumber) then Err(ValidationError("Invalid South African ID number."))
    else Ok(idNumber)
  }

  // ----- MembershipApplicationForm, ApplicationReviewForm, BulkMemberActionForm -----

  const MIN_MOTIVATION_LENGTH := 100

  /** `MembershipApplicationForm.clean_motivation`: a given motivation needs 100 characters besides surrounding whitespace. */
  function CleanMotivation(motivation: string): (r: Result<string>)
    ensures r.Ok? <==> motivation == [] || |Strip(motivation)| >= MIN_MOTIVATION_LENGTH
    ensures r.Ok? ==> r.value == motivation
    ensures r.Err? ==> r.error == ValidationError("Motivation must be at least 100 characters long.")
  {
    if motivation != [] && |Strip(motivation)| < MIN_MOTIVATION_LENGTH then Err(ValidationError("Motivation must be at least 100 characters long."))
    else Ok(motivation)
  }

  /** Padding with blanks never gets a short motivation through. */
  lemma PaddedMotivationRefused(motivation: string)
    requires motivation != [] && forall i :: 0 <= i < |motivation| ==> IsSpace(motivation[i])
    ensures CleanMotivation(motivation).Err?
  {
    StripEmptyIffAllSpace(motivation);
  }

  /** `ApplicationReviewForm.clean_decision` and `BulkMemberActionForm.clean_action`: a choice must be made. */
  function CleanChoice(choice: string, message: string): (r: Result<string>)
    ensures r.Ok? <==> choice != []
    ensures r.Ok? ==> r.value == choice
    ensures r.Err? ==> r.error == ValidationError(message)
  {
    if choice == [] then Err(ValidationError(message)) else Ok(choice)
  }

  function CleanDecision(decision: string): (r: Result<string>)
    ensures r.Ok? <==> decision != []
    ensures r.Err? ==> r.error == ValidationError("Please select a decision.")
  {
    CleanChoice(decision, "Please select a decision.")
  }

  function CleanAction(action: string): (r: Result<string>)
    ensures r.Ok? <==> action != []
    ensures r.Err? ==> r.error == ValidationError("Please select an action.")
  {
    CleanChoice(action, "Please select an action.")
  }

  // ----- MemberBankAccountForm -----

  /** `MemberBankAccountForm.clean_account_number`: a given number must pass the bank account validator. */
  function CleanMemberAccountNumber(accountNumber: string): (r: Result<string>)
    ensures r.Ok? <==> StokvelForms.CleanAccountNumber(accountNumber).Ok?
    ensures r.Ok? ==> r.value == accountNumber
    ensures r.Err? ==> r.error == ValidationError("Invalid account number format.")
  {
    if accountNumber != [] && !ValidationUtils.ValidateBankAccountNumber(accountNumber) then Err(ValidationError("Invalid account number format."))
    else Ok(accountNumber)
  }

  /** `MemberBankAccountForm.clean_branch_code`: the stokvel form's check with this form's messages. */
  function CleanMemberBranchCode(code: string): (r: Result<string>)
    ensures r.Ok? <==> StokvelForms.CleanBranchCode(code).Ok?
    ensures r.Ok? ==> r == StokvelForms.CleanBranchCode(code)
    ensures StokvelForms.BranchCodeFaultOf(code) == Some(StokvelForms.NotDigits) ==> r == Err(ValidationError("Branch code must contain only numbers."))
    ensures StokvelForms.BranchCodeFaultOf(code) == Some(StokvelForms.WrongLength) ==> r == Err(ValidationError("Branch code must be exactly 6 digits."))
  {
    match StokvelForms.BranchCodeFaultOf(code)
    case None => Ok(RemoveChar(code, ' '))
    case Some(NotDigits) => Err(ValidationError("Branch code must contain only numbers."))
    case Some(WrongLength) => Err(ValidationError("Branch code must be exactly 6 digits."))
  }

  // ----- EmailVerificationForm, PhoneVerificationForm -----

  /** `clean_verification_code` of both verification forms: a given code must be digits only. */
  function CleanVerificationCode(code: string): (r: Result<string>)
    ensures r.Ok? <==> AllDigits(code)
    ensures r.Ok? ==> r.value == code
    ensures r.Err? ==> r.error == ValidationError("Verification code must contain only numbers.")
  {
    if code != [] && !IsDigits(code) then Err(ValidationError("Verification code must contain only numbers."))
    else Ok(code)
  }

  // ----- MemberReportFilterForm -----

  /** `MemberReportFilterForm.clean`: an end before the start is refused; the same day is a valid range. */
  function CleanReportRange(start: Option<Date>, end: Option<Date>): (r: Result<(Option<Date>, Option<Date>)>)
    ensures r.Ok? <==> start.None? || end.None? || Le(start.value, end.value)
    ensures r.Ok? ==> r.value == (start, end)
    ensures r.Err? ==> r.error == ValidationError("End date must be after start date.")
  {
    if start.Some? && end.Some? && Lt(end.value, start.value) then Err(ValidationError("End date must be after start date."))
    else
      assert start.Some? && end.Some? ==> Le(start.value, end.value) by {
        if start.Some? && end.Some? {
          OrdinalOrder(start.value, end.value);
          OrdinalOrder(end.value, start.value);
        }
      }
      Ok((start, end))
  }
}
