/**
 * The accounts app's helpers (accounts/utils.py): profile completion, the
 * username generator, South African phone numbers, the probation check, the
 * application approval rate and the priority order of pending applications.
 */
module AccountsUtils
{
  import opened Common
  import opened Strings
  import opened Dates
  import opened AccountsModels
  import StokvelModels
  import AccountsServices

  // ----- ProfileUtils.calculate_profile_completion -----

  /** An entry of the two dictionaries `calculate_profile_completion` walks. */
  datatype ProfileItem =
    | FirstNameItem | LastNameItem | EmailItem | PhoneItem | BirthDateItem | AddressItem | CityItem | ProvinceItem | PostalCodeItem
    | EmailVerifiedItem | PhoneVerifiedItem
  {
    function Label(): string
    {
      match this
      case FirstNameItem => "First Name"
      case LastNameItem => "Last Name"
      case EmailItem => "Email Address"
      case PhoneItem => "Phone Number"
      case BirthDateItem => "Date of Birth"
      case AddressItem => "Address"
      case CityItem => "City"
      case ProvinceItem => "Province"
      case PostalCodeItem => "Postal Code"
      case EmailVerifiedItem => "Email Verification"
      case PhoneVerifiedItem => "Phone Verification"
    }
  }

  const REQUIRED_ITEMS: seq<ProfileItem> :=
    [FirstNameItem, LastNameItem, EmailItem, PhoneItem, BirthDateItem, AddressItem, CityItem, ProvinceItem, PostalCodeItem]

  const VERIFICATION_ITEMS: seq<ProfileItem> := [EmailVerifiedItem, PhoneVerifiedItem]

  /** `total_fields`: the required fields and the verifications. */
  const TOTAL_FIELDS := 11

  /** A text field counts when something other than whitespace is left, the birth date when it is set, a verification when its flag is. */
  predicate IsFilled(user: User, item: ProfileItem)
  {
    match item
    case FirstNameItem => Strip(user.firstName) != []
    case LastNameItem => Strip(user.lastName) != []
    case EmailItem => Strip(user.email) != []
    case PhoneItem => Strip(user.phoneNumber) != []
    case BirthDateItem => user.dateOfBirth.Some?
    case AddressItem => Strip(user.addressLine1) != []
    case CityItem => Strip(user.city) != []
    case ProvinceItem => Strip(user.province) != []
    case PostalCodeItem => Strip(user.postalCode) != []
    case EmailVerifiedItem => user.emailVerified
    case PhoneVerifiedItem => user.phoneVerified
  }

  /** For each item of `items`, whether it is not filled. */
  function UnfilledFlags(user: User, items: seq<ProfileItem>): (flags: seq<bool>)
    ensures |flags| == |items| && forall k :: 0 <= k < |items| ==> flags[k] == !IsFilled(user, items[k])
  {
    seq(|items|, k requires 0 <= k < |items| => !IsFilled(user, items[k]))
  }

  /** The positions in `items` of the items that are not filled, increasing. */
  function UnfilledPositions(user: User, items: seq<ProfileItem>): (ix: seq<nat>)
    ensures forall i :: 0 <= i < |ix| ==> ix[i] < |items| && !IsFilled(user, items[ix[i]])
    ensures forall k :: 0 <= k < |items| && !IsFilled(user, items[k]) ==> k in ix
    ensures forall i, j :: 0 <= i < j < |ix| ==> ix[i] < ix[j]
  {
    Positions(UnfilledFlags(user, items))
  }

  /** The items of `items` that are not filled, in order: the items at the unfilled positions. */
  function MissingItems(user: User, items: seq<ProfileItem>): (missing: seq<ProfileItem>)
    ensures |missing| == |UnfilledPositions(user, items)|
    ensures forall i :: 0 <= i < |missing| ==> missing[i] == items[UnfilledPositions(user, items)[i]]
    ensures forall it :: it in missing <==> it in items && !IsFilled(user, it)
    ensures |missing| <= |items|
  {
    var flags := UnfilledFlags(user, items);
    var ix := UnfilledPositions(user, items);
    var missing := Keep(items, flags);
    assert ix == Positions(flags);
    assert forall i :: 0 <= i < |missing| ==> missing[i] == items[ix[i]];
    assert forall it :: it in missing ==> it in items && !IsFilled(user, it) by {
      forall it | it in missing ensures it in items && !IsFilled(user, it) {
        var i :| 0 <= i < |missing| && missing[i] == it;
        assert items[ix[i]] == it;
      }
    }
    assert forall it :: it in items && !IsFilled(user, it) ==> it in missing by {
      forall it | it in items && !IsFilled(user, it) ensures it in missing {
        var k :| 0 <= k < |items| && items[k] == it;
        var i :| 0 <= i < |ix| && ix[i] == k;
        assert missing[i] == it;
      }
    }
    missing
  }

  function ItemLabels(items: seq<ProfileItem>): (labels: seq<string>)
    ensures |labels| == |items| && forall k :: 0 <= k < |items| ==> labels[k] == items[k].Label()
  {
    seq(|items|, k requires 0 <= k < |items| => items[k].Label())
  }

  /** What `calculate_profile_completion` returns. */
  datatype CompletionReport = CompletionReport(percentage: nat, completed: nat, total: nat, missing: seq<string>, isComplete: bool)

  /**
   * The completion of a profile: the completed items out of eleven, the
   * labels of the others in check order, and the percentage truncated to an
   * integer. (`int(completed / 11 * 100)` in floating point equals the integer
   * quotient, since the exact value is an integer only for 0 and 11 and is
   * otherwise at least 1/11 away from one.)
   */
  function ProfileCompletion(user: User): (r: CompletionReport)
    ensures r.total == TOTAL_FIELDS && r.completed + |r.missing| == TOTAL_FIELDS
    ensures r.missing == ItemLabels(MissingItems(user, REQUIRED_ITEMS + VERIFICATION_ITEMS))
    ensures r.percentage <= 100 && r.percentage * TOTAL_FIELDS <= r.completed * 100 < (r.percentage + 1) * TOTAL_FIELDS
    ensures r.isComplete <==> r.missing == []
  {
    var missing := MissingItems(user, REQUIRED_ITEMS + VERIFICATION_ITEMS);
    var completed := TOTAL_FIELDS - |missing|;
    var percentage := completed * 100 / TOTAL_FIELDS;
    CompletionReport(percentage, completed, TOTAL_FIELDS, ItemLabels(missing), percentage == 100)
  }

  /** One more item either is filled or joins the missing list. */
  lemma MissingStep(user: User, items: seq<ProfileItem>, i: nat)
    requires i < |items|
    ensures MissingItems(user, items[..i + 1]) == MissingItems(user, items[..i]) + (if IsFilled(user, items[i]) then [] else [items[i]])
  {
    var xs := items[..i + 1];
    var flags := UnfilledFlags(user, xs);
    assert xs[..i] == items[..i];
    assert flags[..i] == UnfilledFlags(user, items[..i]);
    assert Keep(xs, flags) == Keep(xs[..i], flags[..i]) + (if flags[i] then [xs[i]] else []);
  }

  /** `calculate_profile_completion`: a counter and a missing list over the required fields, then over the verifications. */
  method CalculateProfileCompletion(user: User) returns (r: CompletionReport)
    ensures r == ProfileCompletion(user)
  {
    var all := REQUIRED_ITEMS + VERIFICATION_ITEMS;
    var completed := 0;
    var missing: seq<ProfileItem> := [];
    for i := 0 to |REQUIRED_ITEMS|
      invariant missing == MissingItems(user, all[..i])
      invariant completed + |missing| == i
    {
      assert all[i] == REQUIRED_ITEMS[i];
      MissingStep(user, all, i);
      if IsFilled(user, REQUIRED_ITEMS[i]) {
        completed := completed + 1;
      } else {
        missing := missing + [REQUIRED_ITEMS[i]];
      }
    }
    for i := 0 to |VERIFICATION_ITEMS|
      invariant missing == MissingItems(user, all[..|REQUIRED_ITEMS| + i])
      invariant completed + |missing| == |REQUIRED_ITEMS| + i
    {
      assert all[|REQUIRED_ITEMS| + i] == VERIFICATION_ITEMS[i];
      MissingStep(user, all, |REQUIRED_ITEMS| + i);
      if IsFilled(user, VERIFICATION_ITEMS[i]) {
        completed := completed + 1;
      } else {
        missing := missing + [VERIFICATION_ITEMS[i]];
      }
    }
    assert all[..|all|] == all;
    var percentage := completed * 100 / TOTAL_FIELDS;
    r := CompletionReport(percentage, completed, TOTAL_FIELDS, ItemLabels(missing), percentage == 100);
  }

  /** The report says complete exactly when every item is filled, and the percentage is 100 only then. */
  lemma CompleteIffAllFilled(user: User)
    ensures var r := ProfileCompletion(user);
      (r.isComplete <==> forall it :: IsFilled(user, it))
      && (r.percentage == 100 <==> r.completed == TOTAL_FIELDS)
  {
    var r := ProfileCompletion(user);
    var missing := MissingItems(user, REQUIRED_ITEMS + VERIFICATION_ITEMS);
    if r.isComplete {
      assert missing == [];
      forall it: ProfileItem
        ensures IsFilled(user, it)
      {
        ItemIsListed(it);
      }
    } else {
      assert missing[0] in missing;
    }
  }

  lemma ItemIsListed(it: ProfileItem)
    ensures it in REQUIRED_ITEMS + VERIFICATION_ITEMS
  {
    var k := match it
      case FirstNameItem => 0
      case LastNameItem => 1
      case EmailItem => 2
      case PhoneItem => 3
      case BirthDateItem => 4
      case AddressItem => 5
      case CityItem => 6
      case ProvinceItem => 7
      case PostalCodeItem => 8
      case EmailVerifiedItem => 9
      case PhoneVerifiedItem => 10;
    assert (REQUIRED_ITEMS + VERIFICATION_ITEMS)[k] == it;
  }

  /**
   * A first name of blanks counts as missing here, while the member
   * validation service, which tests the raw string, accepts it.
   */
  lemma BlankNameDisagreement(user: User, hasVerifiedAccount: bool)
    requires user.firstName == " "
    ensures FirstNameItem in MissingItems(user, REQUIRED_ITEMS + VERIFICATION_ITEMS)
    ensures !AccountsServices.IsMissing(AccountsServices.NoFirstName, user, hasVerifiedAccount)
  {
    assert Strip(" ") == [];
    ItemIsListed(FirstNameItem);
  }

  // ----- ProfileUtils.generate_username -----

  /** The characters `re.sub(r'[^a-z0-9._]', '', ...)` keeps. */
  predicate IsUsernameChar(c: char)
  {
    'a' <= c <= 'z' || '0' <= c <= '9' || c == '.' || c == '_'
  }

  function CleanUsername(s: string): (r: string)
    ensures forall i :: 0 <= i < |r| ==> IsUsernameChar(r[i])
    ensures |r| <= |s|
    ensures (forall i :: 0 <= i < |s| ==> IsUsernameChar(s[i])) ==> r == s
  {
    if s == [] then []
    else if IsUsernameChar(s[0]) then [s[0]] + CleanUsername(s[1..])
    else CleanUsername(s[1..])
  }

  /**
   * The cleaned base: "first.last" in lower case when both names are given,
   * else the part of the e-mail address before the first "@", else "user"
   * and the random number drawn from 1000..9999.
   */
  function BaseUsername(firstName: string, lastName: string, email: string, randomNumber: nat): (base: string)
    ensures forall i :: 0 <= i < |base| ==> IsUsernameChar(base[i])
  {
    var raw :=
      if firstName != [] && lastName != [] then Lower(firstName) + "." + Lower(lastName)
      else if email != [] then Lower(Split(email, '@')[0])
      else "user" + NatToString(randomNumber);
    CleanUsername(raw)
  }

  /** The names the loop tries: the base, then the base with 1, 2, ... appended. */
  function Candidate(base: string, counter: nat): string
  {
    if counter == 0 then base else base + NatToString(counter)
  }

  lemma CandidatesDistinct(base: string, a: nat, b: nat)
    requires a != b
    ensures Candidate(base, a) != Candidate(base, b)
  {
    if a != 0 && b != 0 && Candidate(base, a) == Candidate(base, b) {
      assert Candidate(base, a)[|base|..] == NatToString(a);
      assert Candidate(base, b)[|base|..] == NatToString(b);
      NatToStringInjective(a, b);
    }
  }

  /**
   * `generate_username`: the first candidate that no existing user has.
   * `taken` holds the existing usernames; the loop ends because every
   * candidate it passes is a different taken name.
   */
  method GenerateUsername(firstName: string, lastName: string, email: string, randomNumber: nat, taken: set<string>)
    returns (username: string)
    ensures username !in taken
    ensures exists c: nat :: username == Candidate(BaseUsername(firstName, lastName, email, randomNumber), c)
                             && forall k :: 0 <= k < c ==> Candidate(BaseUsername(firstName, lastName, email, randomNumber), k) in taken
  {
    var base := BaseUsername(firstName, lastName, email, randomNumber);
    username := base;
    var counter := 1;
    ghost var tried: set<string> := {};
    while username in taken
      invariant counter >= 1 && username == Candidate(base, counter - 1)
      invariant tried <= taken
      invariant forall k :: 0 <= k < counter - 1 ==> Candidate(base, k) in tried
      invariant forall s :: s in tried ==> exists k :: 0 <= k < counter - 1 && s == Candidate(base, k)
      decreases |taken - tried|
    {
      if username in tried {
        var k :| 0 <= k < counter - 1 && username == Candidate(base, k);
        CandidatesDistinct(base, k, counter - 1);
      }
      assert taken - (tried + {username}) < taken - tried;
      tried := tried + {username};
      username := base + NatToString(counter);
      counter := counter + 1;
    }
  }

  // ----- ProfileUtils.validate_south_african_phone -----

  /** `^27[0-9]{9}$` on the digits. */
  predicate InternationalDigits(d: string)
  {
    |d| == 11 && d[..2] == "27"
  }

  /** `^0[0-9]{9}$` on the digits. */
  predicate LocalDigits(d: string)
  {
    |d| == 10 && d[0] == '0'
  }

  /** `^[0-9]{9}$` on the digits. */
  predicate SubscriberDigits(d: string)
  {
    |d| == 9
  }

  predicate AcceptedDigits(d: string)
  {
    InternationalDigits(d) || LocalDigits(d) || SubscriberDigits(d)
  }

  /** The formatting as written: it looks at the leading digits, not at the pattern that matched. */
  function FormatAsWritten(cleaned: string): string
  {
    if StartsWith(cleaned, "27") then "+" + cleaned
    else if StartsWith(cleaned, "0") then "+27" + cleaned[1..]
    else "+27" + cleaned
  }

  /** `validate_south_african_phone` as written. */
  function ValidateSouthAfricanPhoneAsWritten(phone: string): (r: (bool, string))
    ensures phone == [] ==> r == (false, "Phone number is required")
    ensures r.0 <==> phone != [] && AcceptedDigits(KeepDigits(phone))
  {
    if phone == [] then (false, "Phone number is required")
    else
      var cleaned := KeepDigits(phone);
      if AcceptedDigits(cleaned) then (true, FormatAsWritten(cleaned))
      else (false, "Invalid South African phone number format")
  }

  /** Nine digits starting with "27" are written as if they were the international form, which drops the country code. */
  lemma NineDigitsAfterTwentySeven(phone: string)
    requires AllDigits(phone) && |phone| == 9 && phone[..2] == "27"
    ensures ValidateSouthAfricanPhoneAsWritten(phone) == (true, "+" + phone)
    ensures ValidateSouthAfricanPhone(phone) == (true, "+27" + phone)
  {
    KeepDigitsOfDigits(phone);
  }

  /** Nine digits starting with "0" are written as if they were the local form, one digit short. */
  lemma NineDigitsAfterZero(phone: string)
    requires AllDigits(phone) && |phone| == 9 && phone[0] == '0'
    ensures ValidateSouthAfricanPhoneAsWritten(phone) == (true, "+27" + phone[1..])
    ensures ValidateSouthAfricanPhone(phone) == (true, "+27" + phone)
  {
    KeepDigitsOfDigits(phone);
    assert phone[..2] != "27" by {
      assert phone[..2][0] == '0';
    }
    assert StartsWith(phone, "0") by {
      assert phone[..1] == [phone[0]];
    }
  }

  /** "271234567" is accepted and written with ten characters instead of "+27" and nine digits. */
  lemma LeadingTwentySevenTruncated()
    ensures ValidateSouthAfricanPhoneAsWritten("271234567") == (true, "+" + "271234567")
    ensures |ValidateSouthAfricanPhoneAsWritten("271234567").1| == 10
    ensures ValidateSouthAfricanPhone("271234567") == (true, "+27" + "271234567")
  {
    var d := "271234567";
    assert AllDigits(d);
    assert d[..2] == "27";
    NineDigitsAfterTwentySeven(d);
  }

  /** "012345678" is accepted and written with eleven characters. */
  lemma LeadingZeroTruncated()
    ensures ValidateSouthAfricanPhoneAsWritten("012345678") == (true, "+27" + "12345678")
    ensures |ValidateSouthAfricanPhoneAsWritten("012345678").1| == 11
    ensures ValidateSouthAfricanPhone("012345678") == (true, "+27" + "012345678")
  {
    var d := "012345678";
    assert AllDigits(d);
    NineDigitsAfterZero(d);
    assert d[1..] == "12345678";
  }

  /** The corrected format: each pattern that matches decides how the number is written. */
  function FormatByPattern(cleaned: string): (formatted: string)
    requires AllDigits(cleaned) && AcceptedDigits(cleaned)
    ensures |formatted| == 12 && formatted[..3] == "+27" && AllDigits(formatted[1..])
    ensures formatted[3..] == if InternationalDigits(cleaned) then cleaned[2..] else if LocalDigits(cleaned) then cleaned[1..] else cleaned
  {
    if InternationalDigits(cleaned) then
      assert ("+" + cleaned)[1..] == cleaned;
      "+" + cleaned
    else if LocalDigits(cleaned) then "+27" + cleaned[1..]
    else "+27" + cleaned
  }

  /**
   * `validate_south_african_phone` as evidently intended: the same
   * acceptance, and every accepted number written as "+27" and nine digits.
   */
  function ValidateSouthAfricanPhone(phone: string): (r: (bool, string))
    ensures phone == [] ==> r == (false, "Phone number is required")
    ensures r.0 <==> phone != [] && AcceptedDigits(KeepDigits(phone))
    ensures r.0 ==> |r.1| == 12 && r.1[..3] == "+27" && AllDigits(r.1[1..])
  {
    if phone == [] then (false, "Phone number is required")
    else
      var cleaned := KeepDigits(phone);
      if AcceptedDigits(cleaned) then (true, FormatByPattern(cleaned))
      else (false, "Invalid South African phone number format")
  }

  /** A normalised number is accepted again and normalises to itself. */
  lemma NormalisedPhoneIsStable(phone: string)
    requires ValidateSouthAfricanPhone(phone).0
    ensures ValidateSouthAfricanPhone(ValidateSouthAfricanPhone(phone).1) == ValidateSouthAfricanPhone(phone)
  {
    var f := ValidateSouthAfricanPhone(phone).1;
    KeepDigitsOfDigits(f[1..]);
    assert f == [f[0]] + f[1..];
    assert KeepDigits(f) == f[1..];
    assert InternationalDigits(f[1..]);
    assert "+" + f[1..] == f;
  }

  /** Except for nine digits starting with "27" or "0", the code as written agrees with the corrected one. */
  lemma PhoneAsWrittenAgreesOtherwise(phone: string)
    requires !(SubscriberDigits(KeepDigits(phone)) && (StartsWith(KeepDigits(phone), "27") || StartsWith(KeepDigits(phone), "0")))
    ensures ValidateSouthAfricanPhoneAsWritten(phone) == ValidateSouthAfricanPhone(phone)
  {
  }

  // ----- MemberUtils.check_probation_eligibility -----

  /** What `check_probation_eligibility` returns; `daysRemaining` is negative once the end date has passed. */
  datatype ProbationReport = ProbationReport(eligible: bool, reason: string, issues: seq<string>, daysRemaining: Option<int>)

  /** The outstanding issues, in the order they are checked. */
  function ProbationIssues(profileComplete: bool, hasVerifiedAccount: bool, outstandingPenalties: nat): (issues: seq<string>)
    ensures issues == [] <==> profileComplete && hasVerifiedAccount && outstandingPenalties == 0
  {
    (if profileComplete then [] else ["Profile not complete"])
    + (if hasVerifiedAccount then [] else ["No verified bank account"])
    + (if outstandingPenalties > 0 then [NatToString(outstandingPenalties) + " outstanding penalties"] else [])
  }

  /**
   * `check_probation_eligibility`: a member in probation whose probation has
   * run its course (as `check_probation_completion` counts it) is eligible
   * when the profile is complete, a bank account is verified and no penalty
   * is outstanding. `outstandingPenalties` is the count of the member's
   * applied or outstanding penalties.
   */
  function ProbationEligibility(m: Member, constitution: Option<StokvelModels.Constitution>, user: User,
                                hasVerifiedAccount: bool, outstandingPenalties: nat, today: Date): (r: Result<ProbationReport>)
    ensures r.Err? <==> AccountsServices.ProbationCompletion(m, constitution, today).Err?
    ensures r.Ok? ==> (r.value.eligible <==>
      AccountsServices.ProbationCompletion(m, constitution, today) == Ok(true)
      && ProfileCompletion(user).isComplete && hasVerifiedAccount && outstandingPenalties == 0)
    ensures m.status != Probation ==> r == Ok(ProbationReport(false, "Member status is " + m.status.Name() + ", not in probation", [], None))
  {
    if m.status != Probation then Ok(ProbationReport(false, "Member status is " + m.status.Name() + ", not in probation", [], None))
    else if m.approvalDate.None? then Ok(ProbationReport(false, "No approval date recorded", [], None))
    else if constitution.None? then Err(DoesNotExist("Constitution"))
    else
      var end := Ordinal(m.approvalDate.value) + constitution.value.probationPeriodMonths * 30;
      if end < 1 || end > Ordinal(DATE_MAX) then Err(OverflowError("date value out of range"))
      else
        var daysRemaining := end - Ordinal(today);
        if daysRemaining > 0 then
          Ok(ProbationReport(false, "Probation period ends in " + IntToString(daysRemaining) + " days", [], Some(daysRemaining)))
        else
          var issues := ProbationIssues(ProfileCompletion(user).isComplete, hasVerifiedAccount, outstandingPenalties);
          Ok(ProbationReport(issues == [], if issues == [] then "Eligible for promotion" else "Issues need resolution", issues, Some(daysRemaining)))
  }

  // ----- ApplicationUtils -----

  /** The applications to a stokvel with the given status. */
  function CountWithStatus(apps: seq<MembershipApplication>, stokvel: nat, status: ApplicationStatus): (n: nat)
    ensures n <= |apps|
  {
    if apps == [] then 0
    else
      var last := apps[|apps| - 1];
      CountWithStatus(apps[..|apps| - 1], stokvel, status) + (if last.stokvel == stokvel && last.status == status then 1 else 0)
  }

  /** The approval rate: approved out of decided (approved or rejected), as a percentage; 0 when nothing is decided. */
  function ApprovalRate(apps: seq<MembershipApplication>, stokvel: nat): (rate: real)
    ensures 0.0 <= rate <= 100.0
    ensures var approved, rejected := CountWithStatus(apps, stokvel, ApplicationApproved), CountWithStatus(apps, stokvel, ApplicationRejected);
      && (approved + rejected == 0 ==> rate == 0.0)
      && (approved + rejected > 0 ==> rate * (approved + rejected) as real == approved as real * 100.0)
      && (rejected == 0 && approved > 0 ==> rate == 100.0)
  {
    var approved := CountWithStatus(apps, stokvel, ApplicationApproved);
    var rejected := CountWithStatus(apps, stokvel, ApplicationRejected);
    RateBounds(approved as real, (approved + rejected) as real);
    Rate(approved as real, (approved + rejected) as real)
  }

  datatype PriorityLevel = High | Medium | Low

  /** The waiting days, plus 5 for a referral and 3 for a profile more than 80% complete. */
  function PriorityScore(waitingDays: int, referred: bool, completionPercentage: nat): (score: int)
    ensures waitingDays <= score <= waitingDays + 8
    ensures !referred && completionPercentage <= 80 ==> score == waitingDays
    ensures score == waitingDays + 8 <==> referred && completionPercentage > 80
  {
    waitingDays + (if referred then 5 else 0) + (if completionPercentage > 80 then 3 else 0)
  }

  /** A referral adds five to the score, whatever else holds. */
  lemma ReferralAddsFive(waitingDays: int, completionPercentage: nat)
    ensures PriorityScore(waitingDays, true, completionPercentage) == PriorityScore(waitingDays, false, completionPercentage) + 5
  {
  }

  /** A profile more than 80% complete adds three to the score; up to 80% adds nothing. */
  lemma CompleteProfileAddsThree(waitingDays: int, referred: bool, completionPercentage: nat)
    ensures completionPercentage > 80 ==> PriorityScore(waitingDays, referred, completionPercentage) == PriorityScore(waitingDays, referred, 0) + 3
    ensures completionPercentage <= 80 ==> PriorityScore(waitingDays, referred, completionPercentage) == PriorityScore(waitingDays, referred, 0)
  {
  }

  /** Each further day of waiting adds one to the score. */
  lemma WaitingDayAddsOne(waitingDays: int, referred: bool, completionPercentage: nat)
    ensures PriorityScore(waitingDays + 1, referred, completionPercentage) == PriorityScore(waitingDays, referred, completionPercentage) + 1
  {
  }

  function LevelOf(score: int): (level: PriorityLevel)
    ensures level == High <==> score >= 10
    ensures level == Low <==> score < 5
  {
    if score >= 10 then High else if score >= 5 then Medium else Low
  }

  function LevelRank(level: PriorityLevel): nat
  {
    match level
    case Low => 0
    case Medium => 1
    case High => 2
  }

  /** A higher score never gets a lower level. */
  lemma LevelIsMonotone(a: int, b: int)
    requires a <= b
    ensures LevelRank(LevelOf(a)) <= LevelRank(LevelOf(b))
  {
  }

  /** A row of the pending summary. */
  datatype PendingEntry = PendingEntry(application: nat, waitingDays: int, score: int, level: PriorityLevel, completion: nat, hasReferral: bool)

  function EntryFor(apps: seq<MembershipApplication>, users: seq<User>, k: nat, today: Date): (e: PendingEntry)
    requires k < |apps| && apps[k].user < |users|
    ensures e.application == k && e.level == LevelOf(e.score)
    ensures e.waitingDays == DaysBetween(apps[k].submittedDate.date, today)
    ensures e.hasReferral == apps[k].referredBy.Some? && e.completion == ProfileCompletion(users[apps[k].user]).percentage
    ensures e.score == PriorityScore(e.waitingDays, e.hasReferral, e.completion)
  {
    var a := apps[k];
    var waiting := DaysBetween(a.submittedDate.date, today);
    var completion := ProfileCompletion(users[a.user]).percentage;
    var score := PriorityScore(waiting, a.referredBy.Some?, completion);
    PendingEntry(k, waiting, score, LevelOf(score), completion, a.referredBy.Some?)
  }

  /**
   * The keys of the stokvel's submitted and under-review applications among
   * the first `n`, in key order. `submitted_date` is set when the row is
   * created, so key order is the query's submission order.
   */
  function PendingKeys(apps: seq<MembershipApplication>, stokvel: nat, n: nat): (keys: seq<nat>)
    requires n <= |apps|
    ensures forall i :: 0 <= i < |keys| ==> keys[i] < n && apps[keys[i]].stokvel == stokvel && AccountsServices.IsPending(apps[keys[i]])
    ensures forall k :: 0 <= k < n && apps[k].stokvel == stokvel && AccountsServices.IsPending(apps[k]) ==> k in keys
    ensures forall i, j :: 0 <= i < j < |keys| ==> keys[i] < keys[j]
  {
    if n == 0 then []
    else
      PendingKeys(apps, stokvel, n - 1) + (if apps[n - 1].stokvel == stokvel && AccountsServices.IsPending(apps[n - 1]) then [n - 1] else [])
  }

  /** The rows for the stokvel's pending applications among the first `n`, one per application, in key order. */
  function PendingEntries(apps: seq<MembershipApplication>, users: seq<User>, stokvel: nat, today: Date, n: nat): (entries: seq<PendingEntry>)
    requires n <= |apps| && forall k :: 0 <= k < |apps| ==> apps[k].user < |users|
    ensures forall i :: 0 <= i < |entries| ==>
      (entries[i].application < n && apps[entries[i].application].stokvel == stokvel && AccountsServices.IsPending(apps[entries[i].application]))
    ensures forall i, j :: 0 <= i < j < |entries| ==> entries[i].application < entries[j].application
    ensures forall k :: 0 <= k < n && apps[k].stokvel == stokvel && AccountsServices.IsPending(apps[k]) ==>
      exists i :: 0 <= i < |entries| && entries[i].application == k
    ensures forall i :: 0 <= i < |entries| ==> entries[i] == EntryFor(apps, users, entries[i].application, today)
  {
    var keys := PendingKeys(apps, stokvel, n);
    var entries := seq(|keys|, i requires 0 <= i < |keys| => EntryFor(apps, users, keys[i], today));
    forall i | 0 <= i < |entries|
      ensures entries[i].application == keys[i] && entries[i] == EntryFor(apps, users, entries[i].application, today)
    {
      assert entries[i] == EntryFor(apps, users, keys[i], today);
    }
    assert forall k :: 0 <= k < n && apps[k].stokvel == stokvel && AccountsServices.IsPending(apps[k]) ==>
      exists i :: 0 <= i < |entries| && entries[i].application == k by {
      forall k | 0 <= k < n && apps[k].stokvel == stokvel && AccountsServices.IsPending(apps[k])
        ensures exists i :: 0 <= i < |entries| && entries[i].application == k
      {
        var i :| 0 <= i < |keys| && keys[i] == k;
        assert entries[i].application == k;
      }
    }
    entries
  }

  /** Inserts `x` after every entry whose score is at least its own, as a stable sort by descending score places it. */
  function InsertByScore(x: PendingEntry, sorted: seq<PendingEntry>): (r: seq<PendingEntry>)
    ensures multiset(r) == multiset(sorted) + multiset{x}
    ensures forall e :: e in r <==> e in sorted || e == x
  {
    if sorted == [] then [x]
    else if sorted[0].score >= x.score then
      assert sorted == [sorted[0]] + sorted[1..];
      [sorted[0]] + InsertByScore(x, sorted[1..])
    else
      [x] + sorted
  }

  /** `summary.sort(key=priority_score, reverse=True)`: Python's sort is stable. */
  function SortByPriority(entries: seq<PendingEntry>): (r: seq<PendingEntry>)
    ensures multiset(r) == multiset(entries)
  {
    if entries == [] then []
    else
      assert entries == entries[..|entries| - 1] + [entries[|entries| - 1]];
      InsertByScore(entries[|entries| - 1], SortByPriority(entries[..|entries| - 1]))
  }

  /** `a` comes before `b`: a higher score, or the same score and an earlier application. */
  predicate Precedes(a: PendingEntry, b: PendingEntry)
  {
    a.score > b.score || (a.score == b.score && a.application < b.application)
  }

  /** Higher scores first; among equal scores, the earlier application first. */
  predicate InPriorityOrder(entries: seq<PendingEntry>)
  {
    forall i, j :: 0 <= i < j < |entries| ==> Precedes(entries[i], entries[j])
  }

  lemma {:induction false} InsertKeepsOrder(x: PendingEntry, sorted: seq<PendingEntry>)
    requires InPriorityOrder(sorted)
    requires forall i :: 0 <= i < |sorted| ==> sorted[i].application < x.application
    ensures InPriorityOrder(InsertByScore(x, sorted))
  {
    if sorted == [] {
    } else if sorted[0].score >= x.score {
      var rest := sorted[1..];
      assert InPriorityOrder(rest) by {
        forall i, j | 0 <= i < j < |rest| ensures Precedes(rest[i], rest[j]) {
          assert rest[i] == sorted[i + 1] && rest[j] == sorted[j + 1];
        }
      }
      InsertKeepsOrder(x, rest);
      var tail := InsertByScore(x, rest);
      forall e | e in tail
        ensures Precedes(sorted[0], e)
      {
        if e != x {
          var k :| 0 <= k < |rest| && rest[k] == e;
          assert sorted[k + 1] == e;
        }
      }
      OrderedCons(sorted[0], tail);
    } else {
      forall e | e in sorted
        ensures Precedes(x, e)
      {
        var k :| 0 <= k < |sorted| && sorted[k] == e;
        if k > 0 {
          assert Precedes(sorted[0], sorted[k]);
        }
      }
      OrderedCons(x, sorted);
    }
  }

  lemma OrderedCons(head: PendingEntry, tail: seq<PendingEntry>)
    requires InPriorityOrder(tail)
    requires forall e :: e in tail ==> Precedes(head, e)
    ensures InPriorityOrder([head] + tail)
  {
    var r := [head] + tail;
    forall i, j | 0 <= i < j < |r|
      ensures Precedes(r[i], r[j])
    {
      assert r[j] == tail[j - 1];
      if i > 0 {
        assert r[i] == tail[i - 1];
      }
    }
  }

  /** Sorting rows given in key order leaves them by descending score, ties in key order: the stable sort's result. */
  lemma {:induction false} SortIsStable(entries: seq<PendingEntry>)
    requires forall i, j :: 0 <= i < j < |entries| ==> entries[i].application < entries[j].application
    ensures InPriorityOrder(SortByPriority(entries))
  {
    if entries != [] {
      var prefix := entries[..|entries| - 1];
      var x := entries[|entries| - 1];
      SortIsStable(prefix);
      var sorted := SortByPriority(prefix);
      forall i | 0 <= i < |sorted|
        ensures sorted[i].application < x.application
      {
        assert sorted[i] in multiset(prefix);
      }
      InsertKeepsOrder(x, sorted);
    }
  }

  /**
   * `get_pending_applications_summary`: a row per pending application in
   * submission order, then sorted by descending priority score.
   */
  method PendingApplicationsSummary(apps: seq<MembershipApplication>, users: seq<User>, stokvel: nat, today: Date)
    returns (summary: seq<PendingEntry>)
    requires forall k :: 0 <= k < |apps| ==> apps[k].user < |users|
    ensures summary == SortByPriority(PendingEntries(apps, users, stokvel, today, |apps|))
    ensures InPriorityOrder(summary)
  {
    var entries: seq<PendingEntry> := [];
    for k := 0 to |apps|
      invariant entries == PendingEntries(apps, users, stokvel, today, k)
    {
      if apps[k].stokvel == stokvel && AccountsServices.IsPending(apps[k]) {
        entries := entries + [EntryFor(apps, users, k, today)];
      }
    }
    SortIsStable(entries);
    summary := SortByPriority(entries);
  }
}
