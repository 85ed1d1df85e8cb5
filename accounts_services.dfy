/**
 * The accounts app's services (accounts/services.py): profile updates and the
 * verification flags, membership applications, member status and role
 * changes with their guards, probation, members' bank accounts, and the
 * payout and leadership eligibility checks. `today` stands for
 * `timezone.now().date()`; activity logging is not modelled.
 */
module AccountsServices
{
  import opened Common
  import opened Strings
  import opened Dates
  import opened Tables
  import opened AccountsModels
  import StokvelModels
  import ValidationUtils
  import StokvelServices

  // ----- UserService -----

  /** The fields `update_user_profile` lets a caller change. */
  datatype ProfileField =
    | FirstName | LastName | EmailField | PhoneNumber | DateOfBirth | IdNumber
    | AddressLine1 | AddressLine2 | City | Province | PostalCode | Country | PreferredLanguage
    | EmailNotifications | SmsNotifications | WhatsappNotifications
  {
    function Name(): string
    {
      match this
      case FirstName => "first_name"
      case LastName => "last_name"
      case EmailField => "email"
      case PhoneNumber => "phone_number"
      case DateOfBirth => "date_of_birth"
      case IdNumber => "id_number"
      case AddressLine1 => "address_line_1"
      case AddressLine2 => "address_line_2"
      case City => "city"
      case Province => "province"
      case PostalCode => "postal_code"
      case Country => "country"
      case PreferredLanguage => "preferred_language"
      case EmailNotifications => "email_notifications"
      case SmsNotifications => "sms_notifications"
      case WhatsappNotifications => "whatsapp_notifications"
    }
  }

  /** `field in allowed_fields`: the whitelisted field a key of `updates` names, if any. */
  function AllowedField(key: string): (f: Option<ProfileField>)
    ensures f.Some? ==> f.value.Name() == key
  {
    if key == "first_name" then Some(FirstName)
    else if key == "last_name" then Some(LastName)
    else if key == "email" then Some(EmailField)
    else if key == "phone_number" then Some(PhoneNumber)
    else if key == "date_of_birth" then Some(DateOfBirth)
    else if key == "id_number" then Some(IdNumber)
    else if key == "address_line_1" then Some(AddressLine1)
    else if key == "address_line_2" then Some(AddressLine2)
    else if key == "city" then Some(City)
    else if key == "province" then Some(Province)
    else if key == "postal_code" then Some(PostalCode)
    else if key == "country" then Some(Country)
    else if key == "preferred_language" then Some(PreferredLanguage)
    else if key == "email_notifications" then Some(EmailNotifications)
    else if key == "sms_notifications" then Some(SmsNotifications)
    else if key == "whatsapp_notifications" then Some(WhatsappNotifications)
    else None
  }

  /** Every whitelisted field is recognised by its own name. */
  lemma AllowedFieldRoundTrip(f: ProfileField)
    ensures AllowedField(f.Name()) == Some(f)
  {
    match f
    case FirstName =>
    case LastName =>
    case EmailField =>
    case PhoneNumber =>
    case DateOfBirth =>
    case IdNumber =>
    case AddressLine1 =>
    case AddressLine2 =>
    case City =>
    case Province =>
    case PostalCode =>
    case Country =>
    case PreferredLanguage =>
    case EmailNotifications =>
    case SmsNotifications =>
    case WhatsappNotifications =>
  }

  /** Keys such as "username" or "is_verified" name no whitelisted field, so they are never applied. */
  lemma ProtectedKeysNotAllowed()
    ensures AllowedField("username").None? && AllowedField("is_verified").None?
    ensures AllowedField("email_verified").None? && AllowedField("phone_verified").None?
  {
  }

  /** A value of the `updates` dictionary, by the kind of field it is meant for. */
  datatype FieldValue = Text(text: string) | Flag(flag: bool) | Day(day: Option<Date>)

  predicate FitsField(f: ProfileField, v: FieldValue)
  {
    match f
    case DateOfBirth => v.Day?
    case EmailNotifications => v.Flag?
    case SmsNotifications => v.Flag?
    case WhatsappNotifications => v.Flag?
    case _ => v.Text?
  }

  /** `getattr(user, field)`. */
  function FieldValueOf(u: User, f: ProfileField): (v: FieldValue)
    ensures FitsField(f, v)
  {
    match f
    case FirstName => Text(u.firstName)
    case LastName => Text(u.lastName)
    case EmailField => Text(u.email)
    case PhoneNumber => Text(u.phoneNumber)
    case DateOfBirth => Day(u.dateOfBirth)
    case IdNumber => Text(u.idNumber)
    case AddressLine1 => Text(u.addressLine1)
    case AddressLine2 => Text(u.addressLine2)
    case City => Text(u.city)
    case Province => Text(u.province)
    case PostalCode => Text(u.postalCode)
    case Country => Text(u.country)
    case PreferredLanguage => Text(u.preferredLanguage)
    case EmailNotifications => Flag(u.emailNotifications)
    case SmsNotifications => Flag(u.smsNotifications)
    case WhatsappNotifications => Flag(u.whatsappNotifications)
  }

  /** `setattr(user, field, value)`: that field takes the value, every other field and the account flags stay. */
  function SetField(u: User, f: ProfileField, v: FieldValue): (r: User)
    requires FitsField(f, v)
    ensures FieldValueOf(r, f) == v
    ensures forall g :: g != f ==> FieldValueOf(r, g) == FieldValueOf(u, g)
    ensures r.username == u.username && r.isVerified == u.isVerified
    ensures r.emailVerified == u.emailVerified && r.phoneVerified == u.phoneVerified
  {
    match f
    case FirstName => u.(firstName := v.text)
    case LastName => u.(lastName := v.text)
    case EmailField => u.(email := v.text)
    case PhoneNumber => u.(phoneNumber := v.text)
    case DateOfBirth => u.(dateOfBirth := v.day)
    case IdNumber => u.(idNumber := v.text)
    case AddressLine1 => u.(addressLine1 := v.text)
    case AddressLine2 => u.(addressLine2 := v.text)
    case City => u.(city := v.text)
    case Province => u.(province := v.text)
    case PostalCode => u.(postalCode := v.text)
    case Country => u.(country := v.text)
    case PreferredLanguage => u.(preferredLanguage := v.text)
    case EmailNotifications => u.(emailNotifications := v.flag)
    case SmsNotifications => u.(smsNotifications := v.flag)
    case WhatsappNotifications => u.(whatsappNotifications := v.flag)
  }

  /** Each whitelisted key of the updates carries a value of its field's type. */
  predicate ValuesFit(updates: seq<(string, FieldValue)>)
  {
    forall i :: 0 <= i < |updates| && AllowedField(updates[i].0).Some? ==> FitsField(AllowedField(updates[i].0).value, updates[i].1)
  }

  /** The items of a dictionary: no key appears twice. */
  predicate DistinctKeys(updates: seq<(string, FieldValue)>)
  {
    forall i, j :: 0 <= i < j < |updates| ==> updates[i].0 != updates[j].0
  }

  /** The user after the `setattr` loop over `updates` in order; keys outside the whitelist are skipped. */
  function AppliedUpdates(u: User, updates: seq<(string, FieldValue)>): User
    requires ValuesFit(updates)
  {
    if updates == [] then u
    else
      var before := AppliedUpdates(u, updates[..|updates| - 1]);
      var last := updates[|updates| - 1];
      var f := AllowedField(last.0);
      if f.Some? then SetField(before, f.value, last.1) else before
  }

  /** No update touches the username or the verification flags. */
  lemma {:induction false} UpdatesKeepProtectedFields(u: User, updates: seq<(string, FieldValue)>)
    requires ValuesFit(updates)
    ensures var r := AppliedUpdates(u, updates);
      r.username == u.username && r.isVerified == u.isVerified
      && r.emailVerified == u.emailVerified && r.phoneVerified == u.phoneVerified
  {
    if updates != [] {
      UpdatesKeepProtectedFields(u, updates[..|updates| - 1]);
    }
  }

  /** A whitelisted key given in the updates sets its field to the value given. */
  lemma {:induction false} UpdatesSetGivenFields(u: User, updates: seq<(string, FieldValue)>, i: nat)
    requires ValuesFit(updates) && DistinctKeys(updates)
    requires i < |updates| && AllowedField(updates[i].0).Some?
    ensures FieldValueOf(AppliedUpdates(u, updates), AllowedField(updates[i].0).value) == updates[i].1
  {
    var n := |updates| - 1;
    var f := AllowedField(updates[i].0).value;
    if i < n {
      UpdatesSetGivenFields(u, updates[..n], i);
      var g := AllowedField(updates[n].0);
      if g.Some? {
        assert g.value != f;
      }
    }
  }

  /** A field no key of the updates names keeps its value. */
  lemma {:induction false} UpdatesLeaveOtherFields(u: User, updates: seq<(string, FieldValue)>, f: ProfileField)
    requires ValuesFit(updates)
    requires forall i :: 0 <= i < |updates| ==> updates[i].0 != f.Name()
    ensures FieldValueOf(AppliedUpdates(u, updates), f) == FieldValueOf(u, f)
  {
    if updates != [] {
      UpdatesLeaveOtherFields(u, updates[..|updates| - 1], f);
    }
  }

  /** The position of `key` among the dictionary's keys. */
  function FindKey(updates: seq<(string, FieldValue)>, key: string, from: nat): (k: Option<nat>)
    requires from <= |updates|
    ensures k.Some? ==> from <= k.value < |updates| && updates[k.value].0 == key
    ensures k.None? ==> forall i :: from <= i < |updates| ==> updates[i].0 != key
    decreases |updates| - from
  {
    if from == |updates| then None
    else if updates[from].0 == key then Some(from)
    else FindKey(updates, key, from + 1)
  }

  predicate EmailTaken(users: seq<User>, email: string)
  {
    exists j :: 0 <= j < |users| && users[j].email == email
  }

  /** The new address that another user already has, when the updates change the e-mail address to one. */
  function EmailClash(users: seq<User>, u: User, updates: seq<(string, FieldValue)>): (clash: Option<string>)
    requires ValuesFit(updates) && DistinctKeys(updates)
    ensures clash.Some? <==> exists i :: 0 <= i < |updates| && updates[i].0 == "email"
                                && updates[i].1.text != u.email && EmailTaken(users, updates[i].1.text)
    ensures clash.Some? ==> clash.value != u.email && EmailTaken(users, clash.value)
  {
    var k := FindKey(updates, "email", 0);
    if k.Some? && updates[k.value].1.text != u.email && EmailTaken(users, updates[k.value].1.text)
    then Some(updates[k.value].1.text)
    else
      assert k.Some? ==> forall i :: 0 <= i < |updates| && updates[i].0 == "email" ==> i == k.value;
      None
  }

  /**
   * `update_user_profile`: a changed e-mail address that another user already
   * has is refused before anything changes; otherwise the whitelisted fields
   * are set in order and the user is saved.
   */
  method UpdateUserProfile(users: Table<User>, pk: nat, updates: seq<(string, FieldValue)>) returns (r: Result<User>)
    requires pk < |users.rows|
    requires ValuesFit(updates) && DistinctKeys(updates)
    modifies users
    ensures var clash := EmailClash(old(users.rows), old(users.rows[pk]), updates);
      if clash.Some? then
        r == Err(ValidationError("Email '" + clash.value + "' already registered")) && users.rows == old(users.rows)
      else
        r == Ok(AppliedUpdates(old(users.rows[pk]), updates)) && users.rows == old(users.rows)[pk := r.value]
  {
    var u := users.rows[pk];
    var k := FindKey(updates, "email", 0);
    if k.Some? && updates[k.value].1.text != u.email {
      var email := updates[k.value].1.text;
      if exists j :: 0 <= j < |users.rows| && users.rows[j].email == email {
        return Err(ValidationError("Email '" + email + "' already registered"));
      }
    }
    var updated := u;
    for i := 0 to |updates|
      invariant updated == AppliedUpdates(u, updates[..i])
    {
      assert updates[..i + 1][..i] == updates[..i];
      var f := AllowedField(updates[i].0);
      if f.Some? {
        updated := SetField(updated, f.value, updates[i].1);
      }
    }
    assert updates[..|updates|] == updates;
    users.Save(pk, updated);
    r := Ok(updated);
  }

  predicate UniqueEmails(users: seq<User>)
  {
    forall i, j :: 0 <= i < j < |users| ==> users[i].email != users[j].email
  }

  /** A profile update that goes through never gives two users the same e-mail address. */
  lemma UpdateKeepsEmailsUnique(users: seq<User>, pk: nat, updates: seq<(string, FieldValue)>)
    requires pk < |users| && UniqueEmails(users)
    requires ValuesFit(updates) && DistinctKeys(updates)
    requires EmailClash(users, users[pk], updates).None?
    ensures UniqueEmails(users[pk := AppliedUpdates(users[pk], updates)])
  {
    var u := users[pk];
    var after := AppliedUpdates(u, updates);
    var k := FindKey(updates, "email", 0);
    if k.Some? {
      UpdatesSetGivenFields(u, updates, k.value);
      assert FieldValueOf(after, EmailField) == updates[k.value].1;
    } else {
      UpdatesLeaveOtherFields(u, updates, EmailField);
      assert FieldValueOf(after, EmailField) == FieldValueOf(u, EmailField);
    }
    assert after.email == u.email || !EmailTaken(users, after.email);
  }

  /** `calculate_verification_percentage`: half of 100 for each of the e-mail and phone flags set. */
  function VerificationPercentage(u: User): (p: nat)
    ensures p == 0 || p == 50 || p == 100
    ensures p == 100 <==> u.emailVerified && u.phoneVerified
    ensures p == 0 <==> !u.emailVerified && !u.phoneVerified
  {
    var completed := (if u.emailVerified then 1 else 0) + (if u.phoneVerified then 1 else 0);
    completed * 100 / 2
  }

  /** `get_missing_verifications`: "email" and then "phone", each when not yet verified. */
  function MissingVerifications(u: User): (missing: seq<string>)
    ensures "email" in missing <==> !u.emailVerified
    ensures "phone" in missing <==> !u.phoneVerified
    ensures forall k :: 0 <= k < |missing| ==> missing[k] == "email" || missing[k] == "phone"
  {
    (if u.emailVerified then [] else ["email"]) + (if u.phoneVerified then [] else ["phone"])
  }

  /** The percentage loses 50 for every missing verification the list names. */
  lemma PercentageCountsMissing(u: User)
    ensures VerificationPercentage(u) == 100 - 50 * |MissingVerifications(u)|
  {
  }

  /** `verify_user_email`. */
  method VerifyUserEmail(users: Table<User>, pk: nat)
    requires pk < |users.rows|
    modifies users
    ensures users.rows == old(users.rows)[pk := old(users.rows[pk]).(emailVerified := true)]
  {
    users.Save(pk, users.rows[pk].(emailVerified := true));
  }

  /** `verify_user_phone`. */
  method VerifyUserPhone(users: Table<User>, pk: nat)
    requires pk < |users.rows|
    modifies users
    ensures users.rows == old(users.rows)[pk := old(users.rows[pk]).(phoneVerified := true)]
  {
    users.Save(pk, users.rows[pk].(phoneVerified := true));
  }

  /** Verifying the e-mail address removes "email" from the missing list and raises the percentage by 50 when it was missing. */
  lemma VerifyingEmailCompletesIt(u: User)
    ensures var v := u.(emailVerified := true);
      "email" !in MissingVerifications(v)
      && VerificationPercentage(v) == VerificationPercentage(u) + (if u.emailVerified then 0 else 50)
  {
  }

  /** Verifying the phone number removes "phone" from the missing list and raises the percentage by 50 when it was missing. */
  lemma VerifyingPhoneCompletesIt(u: User)
    ensures var v := u.(phoneVerified := true);
      "phone" !in MissingVerifications(v)
      && VerificationPercentage(v) == VerificationPercentage(u) + (if u.phoneVerified then 0 else 50)
  {
  }

  // ----- MembershipApplicationService -----

  /** An application counts as pending while it is submitted or under review. */
  predicate IsPending(a: MembershipApplication)
  {
    a.status == Submitted || a.status == UnderReview
  }

  predicate HasPendingApplication(rows: seq<MembershipApplication>, user: nat, stokvel: nat)
  {
    exists k :: 0 <= k < |rows| && rows[k].user == user && rows[k].stokvel == stokvel && IsPending(rows[k])
  }

  /** Any application of the user to the stokvel, whatever its status: the pair is unique in the table. */
  predicate HasApplication(rows: seq<MembershipApplication>, user: nat, stokvel: nat)
  {
    exists k :: 0 <= k < |rows| && rows[k].user == user && rows[k].stokvel == stokvel
  }

  /** The constitution caps membership and the stokvel already has that many members, whatever their status. */
  predicate AtMemberLimit(members: seq<Member>, constitution: Option<StokvelModels.Constitution>, stokvel: nat)
  {
    constitution.Some? && Truthy(constitution.value.maximumMembers)
    && MemberCount(members, stokvel) >= constitution.value.maximumMembers.value
  }

  /**
   * Why `submit_application` refuses, checked in its order: an existing
   * member, a pending application, a stokvel that is closed or inactive, a
   * full stokvel, and finally the unique (user, stokvel) constraint that an
   * older decided application trips on create.
   */
  function SubmissionError(applications: seq<MembershipApplication>, members: seq<Member>, record: StokvelModels.Stokvel,
                           constitution: Option<StokvelModels.Constitution>, user: nat, stokvel: nat): (e: Option<Error>)
    ensures e.None? <==>
      !IsMemberOf(members, user, stokvel) && !HasApplication(applications, user, stokvel)
      && record.isAcceptingMembers && record.isActive && !AtMemberLimit(members, constitution, stokvel)
    ensures IsMemberOf(members, user, stokvel) ==> e == Some(ValidationError("You are already a member of " + record.name))
    ensures e.Some? && e.value.IntegrityError? ==>
      HasApplication(applications, user, stokvel) && !HasPendingApplication(applications, user, stokvel)
    ensures e.Some? && !HasApplication(applications, user, stokvel) ==> e.value.ValidationError?
  {
    if IsMemberOf(members, user, stokvel) then
      Some(ValidationError("You are already a member of " + record.name))
    else if HasPendingApplication(applications, user, stokvel) then
      Some(ValidationError("You already have a pending application for " + record.name))
    else if !record.isAcceptingMembers || !record.isActive then
      Some(ValidationError(record.name + " is not currently accepting new members"))
    else if AtMemberLimit(members, constitution, stokvel) then
      Some(ValidationError(record.name + " has reached its maximum member limit"))
    else if HasApplication(applications, user, stokvel) then
      Some(IntegrityError("UNIQUE constraint failed: user, stokvel"))
    else None
  }

  /** The application `submit_application` creates. */
  function NewApplication(user: nat, stokvel: nat, motivation: string, referralSource: string, referredBy: Option<nat>, now: DateTime)
    : (a: MembershipApplication)
    ensures a.user == user && a.stokvel == stokvel && a.status == Submitted && IsPending(a)
    ensures a.reviewedBy.None? && a.decisionDate.None? && a.submittedDate == now
  {
    MembershipApplication(user, stokvel, Submitted, motivation, referralSource, referredBy, None, None, "", now, None)
  }

  /** `submit_application`: the guards in order, then a submitted application. */
  method SubmitApplication(applications: Table<MembershipApplication>, members: seq<Member>, record: StokvelModels.Stokvel,
                           constitution: Option<StokvelModels.Constitution>, user: nat, stokvel: nat,
                           motivation: string, referralSource: string, referredBy: Option<nat>, now: DateTime)
    returns (r: Result<nat>)
    modifies applications
    ensures var e := SubmissionError(old(applications.rows), members, record, constitution, user, stokvel);
      if e.Some? then r == Err(e.value) && applications.rows == old(applications.rows)
      else r == Ok(|old(applications.rows)|)
           && applications.rows == old(applications.rows) + [NewApplication(user, stokvel, motivation, referralSource, referredBy, now)]
  {
    if exists k :: 0 <= k < |members| && members[k].user == user && members[k].stokvel == stokvel {
      return Err(ValidationError("You are already a member of " + record.name));
    }
    var rows := applications.rows;
    if exists k :: 0 <= k < |rows| && rows[k].user == user && rows[k].stokvel == stokvel && IsPending(rows[k]) {
      return Err(ValidationError("You already have a pending application for " + record.name));
    }
    if !record.isAcceptingMembers || !record.isActive {
      return Err(ValidationError(record.name + " is not currently accepting new members"));
    }
    if constitution.Some? && Truthy(constitution.value.maximumMembers) {
      var current := MemberCount(members, stokvel);
      if current >= constitution.value.maximumMembers.value {
        return Err(ValidationError(record.name + " has reached its maximum member limit"));
      }
    }
    if exists k :: 0 <= k < |rows| && rows[k].user == user && rows[k].stokvel == stokvel {
      return Err(IntegrityError("UNIQUE constraint failed: user, stokvel"));
    }
    var pk := applications.Create(NewApplication(user, stokvel, motivation, referralSource, referredBy, now));
    r := Ok(pk);
  }

  /** Once an application is submitted, submitting again is refused as a pending application. */
  lemma ResubmissionRefused(applications: seq<MembershipApplication>, members: seq<Member>, record: StokvelModels.Stokvel,
                            constitution: Option<StokvelModels.Constitution>, user: nat, stokvel: nat,
                            motivation: string, referralSource: string, referredBy: Option<nat>, now: DateTime)
    requires !IsMemberOf(members, user, stokvel)
    ensures var after := applications + [NewApplication(user, stokvel, motivation, referralSource, referredBy, now)];
      SubmissionError(after, members, record, constitution, user, stokvel)
      == Some(ValidationError("You already have a pending application for " + record.name))
  {
    var after := applications + [NewApplication(user, stokvel, motivation, referralSource, referredBy, now)];
    assert IsPending(after[|applications|]);
  }

  /** A user whose application was rejected can never apply to that stokvel again: the create trips the unique constraint. */
  lemma RejectedApplicantCannotReapply(applications: seq<MembershipApplication>, members: seq<Member>, record: StokvelModels.Stokvel,
                                       constitution: Option<StokvelModels.Constitution>, k: nat)
    requires k < |applications| && applications[k].status == ApplicationRejected
    requires forall j :: 0 <= j < |applications| && j != k ==> applications[j].user != applications[k].user
    ensures SubmissionError(applications, members, record, constitution, applications[k].user, applications[k].stokvel).Some?
  {
  }

  /** `approve_application`: only a submitted application can be approved, by `MembershipApplication.approve`. */
  method ApproveApplication(applications: Table<MembershipApplication>, members: Table<Member>, pk: nat, reviewer: nat, notes: string, now: DateTime)
    returns (r: Result<nat>)
    requires pk < |applications.rows|
    modifies applications, members
    ensures var a := old(applications.rows[pk]);
      if a.status != Submitted then
        r == Err(ValidationError("Only submitted applications can be approved"))
        && applications.rows == old(applications.rows) && members.rows == old(members.rows)
      else if IsMemberOf(old(members.rows), a.user, a.stokvel) then
        r.Err? && applications.rows == old(applications.rows) && members.rows == old(members.rows)
      else
        r == Ok(|old(members.rows)|)
        && applications.rows == old(applications.rows)[pk := a.(status := ApplicationApproved, reviewedBy := Some(reviewer),
             reviewDate := Some(now), decisionDate := Some(now), reviewNotes := notes)]
        && |members.rows| == |old(members.rows)| + 1 && members.rows[..|old(members.rows)|] == old(members.rows)
        && members.rows[r.value].user == a.user && members.rows[r.value].stokvel == a.stokvel
        && members.rows[r.value].status == Probation && members.rows[r.value].approvalDate == Some(now.date)
  {
    if applications.rows[pk].status != Submitted {
      return Err(ValidationError("Only submitted applications can be approved"));
    }
    r := Approve(applications, members, pk, reviewer, notes, now);
  }

  /** `reject_application`: only a submitted application can be rejected, by `MembershipApplication.reject`. */
  method RejectApplication(applications: Table<MembershipApplication>, pk: nat, reviewer: nat, notes: string, now: DateTime)
    returns (r: Result<()>)
    requires pk < |applications.rows|
    modifies applications
    ensures var a := old(applications.rows[pk]);
      if a.status != Submitted then
        r == Err(ValidationError("Only submitted applications can be rejected")) && applications.rows == old(applications.rows)
      else
        r == Ok(()) && applications.rows == old(applications.rows)[pk := a.(status := ApplicationRejected, reviewedBy := Some(reviewer),
                         reviewDate := Some(now), decisionDate := Some(now), reviewNotes := notes)]
  {
    if applications.rows[pk].status != Submitted {
      return Err(ValidationError("Only submitted applications can be rejected"));
    }
    Reject(applications, pk, reviewer, notes, now);
    r := Ok(());
  }

  // ----- MemberService -----

  /** The `valid_transitions` table; "rejected" has no entry and so no way out. */
  function AllowedTransitions(from: MemberStatus): seq<MemberStatus>
  {
    match from
    case MemberPending => [Probation, Active, MemberRejected]
    case Probation => [Active, Suspended, Inactive]
    case Active => [Suspended, Inactive, Exited]
    case Suspended => [Active, Inactive, Exited]
    case Inactive => [Active, Exited]
    case Exited => []
    case MemberRejected => []
  }

  /** Why `update_member_status` refuses a new status string: it is not in the list for the current status. */
  function StatusChangeError(m: Member, newStatus: string): (e: Option<Error>)
    ensures e.None? <==> ParseMemberStatus(newStatus).Some? && ParseMemberStatus(newStatus).value in AllowedTransitions(m.status)
    ensures e.Some? ==> e.value == ValidationError("Invalid status transition from " + m.status.Name() + " to " + newStatus)
  {
    var to := ParseMemberStatus(newStatus);
    if to.Some? && to.value in AllowedTransitions(m.status) then None
    else Some(ValidationError("Invalid status transition from " + m.status.Name() + " to " + newStatus))
  }

  /**
   * The transition table's shape: exited and rejected are final, no status
   * leads back to pending or to itself, and every other status can reach
   * exited in at most two steps.
   */
  lemma TransitionTableShape(m: Member, newStatus: string)
    ensures m.status == Exited || m.status == MemberRejected ==> StatusChangeError(m, newStatus).Some?
    ensures newStatus == "pending" || newStatus == m.status.Name() ==> StatusChangeError(m, newStatus).Some?
    ensures m.status != Exited && m.status != MemberRejected ==>
      Exited in AllowedTransitions(m.status) || (Active in AllowedTransitions(m.status) && Exited in AllowedTransitions(Active))
  {
    ParseMemberStatusRoundTrip(m.status);
  }

  /** The member after a permitted change to `to`: probation ended or exit recorded today where that applies. */
  function StatusChanged(m: Member, to: MemberStatus, today: Date): (r: Member)
    ensures r.status == to
    ensures r.probationEndDate == if m.status == Probation && to == Active then Some(today) else m.probationEndDate
    ensures r.exitDate == if to == Exited then Some(today) else m.exitDate
    ensures r == m.(status := to, probationEndDate := r.probationEndDate, exitDate := r.exitDate)
  {
    var ended := if to == Active && m.status == Probation then m.(probationEndDate := Some(today)) else m;
    var exited := if to == Exited then ended.(exitDate := Some(today)) else ended;
    exited.(status := to)
  }

  /**
   * `update_member_status`: a transition outside the table is refused;
   * otherwise the status and its date change and `Member.save` runs, which
   * only numbers a member that has no number yet.
   */
  method UpdateMemberStatus(members: Table<Member>, pk: nat, newStatus: string, today: Date) returns (r: Result<Member>)
    requires pk < |members.rows|
    modifies members
    ensures var m := old(members.rows[pk]);
      var e := StatusChangeError(m, newStatus);
      if e.Some? then r == Err(e.value) && members.rows == old(members.rows)
      else
        r.Ok? && members.rows == old(members.rows)[pk := r.value]
        && r.value == StatusChanged(m, ParseMemberStatus(newStatus).value, today).(memberNumber := r.value.memberNumber)
        && r.value.memberNumber == if m.memberNumber != [] then m.memberNumber
                                   else NextMemberNumber(StokvelNumbers(old(members.rows), m.stokvel))
  {
    var m := members.rows[pk];
    var to := ParseMemberStatus(newStatus);
    if !(to.Some? && to.value in AllowedTransitions(m.status)) {
      return Err(ValidationError("Invalid status transition from " + m.status.Name() + " to " + newStatus));
    }
    var changed := m;
    if to.value == Active && m.status == Probation {
      changed := changed.(probationEndDate := Some(today));
    }
    if to.value == Exited {
      changed := changed.(exitDate := Some(today));
    }
    changed := changed.(status := to.value);
    var _, saved := SaveMember(members, changed, Some(pk));
    r := Ok(saved);
  }

  /** The roles only an active member may hold. */
  predicate IsLeadershipRole(role: Role)
  {
    role != RoleMember
  }

  /** The roles at most one active member of a stokvel may hold. */
  predicate IsUniqueRole(role: Role)
  {
    role == Chairperson || role == Treasurer || role == Secretary
  }

  /** Another active member of the stokvel, other than the one at `pk`, holds `role`. */
  predicate RoleTakenByOther(rows: seq<Member>, pk: nat, stokvel: nat, role: Role)
  {
    exists k :: 0 <= k < |rows| && k != pk && rows[k].stokvel == stokvel && rows[k].role == role && rows[k].status == Active
  }

  /** Why `update_member_role` refuses: an unknown role, a leadership role for a member who is not active, or a unique role already held. */
  function RoleChangeError(rows: seq<Member>, pk: nat, newRole: string): (e: Option<Error>)
    requires pk < |rows|
    ensures e.None? <==>
      ParseRole(newRole).Some?
      && (IsLeadershipRole(ParseRole(newRole).value) ==> rows[pk].status == Active)
      && (IsUniqueRole(ParseRole(newRole).value) ==> !RoleTakenByOther(rows, pk, rows[pk].stokvel, ParseRole(newRole).value))
    ensures ParseRole(newRole).None? ==> e == Some(ValidationError("Invalid role: " + newRole))
    ensures e.Some? ==> e.value.ValidationError?
  {
    var role := ParseRole(newRole);
    if role.None? then Some(ValidationError("Invalid role: " + newRole))
    else if IsLeadershipRole(role.value) && rows[pk].status != Active then
      Some(ValidationError("Only active members can have leadership roles"))
    else if IsUniqueRole(role.value) && RoleTakenByOther(rows, pk, rows[pk].stokvel, role.value) then
      Some(ValidationError("Another member already has the " + newRole + " role"))
    else None
  }

  /** `update_member_role`: the guards, then the new role saved. */
  method UpdateMemberRole(members: Table<Member>, pk: nat, newRole: string) returns (r: Result<Member>)
    requires pk < |members.rows|
    modifies members
    ensures var m := old(members.rows[pk]);
      var e := RoleChangeError(old(members.rows), pk, newRole);
      if e.Some? then r == Err(e.value) && members.rows == old(members.rows)
      else
        r.Ok? && members.rows == old(members.rows)[pk := r.value]
        && r.value == m.(role := ParseRole(newRole).value, memberNumber := r.value.memberNumber)
        && r.value.memberNumber == if m.memberNumber != [] then m.memberNumber
                                   else NextMemberNumber(StokvelNumbers(old(members.rows), m.stokvel))
  {
    var m := members.rows[pk];
    var role := ParseRole(newRole);
    if role.None? {
      return Err(ValidationError("Invalid role: " + newRole));
    }
    if IsLeadershipRole(role.value) && m.status != Active {
      return Err(ValidationError("Only active members can have leadership roles"));
    }
    if IsUniqueRole(role.value) {
      var rows := members.rows;
      if exists k :: 0 <= k < |rows| && k != pk && rows[k].stokvel == m.stokvel && rows[k].role == role.value && rows[k].status == Active {
        return Err(ValidationError("Another member already has the " + newRole + " role"));
      }
    }
    var _, saved := SaveMember(members, m.(role := role.value), Some(pk));
    r := Ok(saved);
  }

  /** Each stokvel has at most one active chairperson, one active treasurer and one active secretary. */
  predicate UniqueLeadership(rows: seq<Member>)
  {
    forall i, j ::
      (0 <= i < |rows| && 0 <= j < |rows| && i != j && rows[i].stokvel == rows[j].stokvel
       && rows[i].status == Active && rows[j].status == Active && IsUniqueRole(rows[i].role))
      ==> rows[i].role != rows[j].role
  }

  /** A role change that goes through keeps every unique role with at most one active holder. */
  lemma RoleChangeKeepsUniqueLeadership(rows: seq<Member>, pk: nat, newRole: string, saved: Member)
    requires pk < |rows| && UniqueLeadership(rows)
    requires RoleChangeError(rows, pk, newRole).None?
    requires saved.role == ParseRole(newRole).value && saved.status == rows[pk].status && saved.stokvel == rows[pk].stokvel
    ensures UniqueLeadership(rows[pk := saved])
  {
    var after := rows[pk := saved];
    forall i, j | 0 <= i < |after| && 0 <= j < |after| && i != j && after[i].stokvel == after[j].stokvel
      && after[i].status == Active && after[j].status == Active && IsUniqueRole(after[i].role)
      ensures after[i].role != after[j].role
    {
      if i == pk {
        assert !RoleTakenByOther(rows, pk, rows[pk].stokvel, saved.role);
        assert after[j] == rows[j];
      } else if j == pk {
        if IsUniqueRole(saved.role) {
          assert !RoleTakenByOther(rows, pk, rows[pk].stokvel, saved.role);
          assert after[i] == rows[i];
        }
      }
    }
  }

  /**
   * Status changes do not look at roles: reactivating an inactive chairperson
   * while another chairperson is active leaves the stokvel with two.
   */
  lemma ReactivationCanDuplicateRole()
    ensures var d: Date := CalendarDate(2024, 1, 1);
      var chair := Member(1, 9, "001", Chairperson, Active, d, Some(d), None, None, "", "", "", "");
      var former := chair.(user := 2, memberNumber := "002", status := Inactive);
      var rows := [chair, former];
      UniqueLeadership(rows)
      && StatusChangeError(former, "active").None?
      && !UniqueLeadership(rows[1 := StatusChanged(former, Active, d)])
  {
    var d: Date := CalendarDate(2024, 1, 1);
    var chair := Member(1, 9, "001", Chairperson, Active, d, Some(d), None, None, "", "", "", "");
    var former := chair.(user := 2, memberNumber := "002", status := Inactive);
    var after := [chair, former][1 := StatusChanged(former, Active, d)];
    assert after[0].role == after[1].role;
  }

  /**
   * `check_probation_completion`: a member in probation with an approval date
   * has completed it once the constitution's months, counted as 30 days each,
   * have passed. A stokvel without a constitution raises on the lookup, and an
   * end date outside the calendar raises on the addition.
   */
  function ProbationCompletion(m: Member, constitution: Option<StokvelModels.Constitution>, today: Date): (r: Result<bool>)
    ensures m.status != Probation || m.approvalDate.None? ==> r == Ok(false)
    ensures r == Ok(true) <==>
      m.status == Probation && m.approvalDate.Some? && constitution.Some?
      && 1 <= Ordinal(m.approvalDate.value) + constitution.value.probationPeriodMonths * 30 <= Ordinal(DATE_MAX)
      && DaysBetween(m.approvalDate.value, today) >= constitution.value.probationPeriodMonths * 30
    ensures r.Err? ==> m.status == Probation && m.approvalDate.Some?
                       && (r.error.DoesNotExist? <==> constitution.None?)
  {
    if m.status != Probation then Ok(false)
    else if m.approvalDate.None? then Ok(false)
    else if constitution.None? then Err(DoesNotExist("Constitution"))
    else
      var end := Ordinal(m.approvalDate.value) + constitution.value.probationPeriodMonths * 30;
      if end < 1 || end > Ordinal(DATE_MAX) then Err(OverflowError("date value out of range"))
      else Ok(Ordinal(today) >= end)
  }

  /** Probation that is complete on one day stays complete on every later day. */
  lemma ProbationCompletionLasts(m: Member, constitution: Option<StokvelModels.Constitution>, day: Date, later: Date)
    requires Le(day, later)
    requires ProbationCompletion(m, constitution, day) == Ok(true)
    ensures ProbationCompletion(m, constitution, later) == Ok(true)
  {
    OrdinalOrder(day, later);
  }

  /**
   * `promote_from_probation`: a member not in probation, or whose probation
   * has not run its course, is refused; otherwise the member becomes active
   * through `update_member_status`, which ends the probation today.
   */
  method PromoteFromProbation(members: Table<Member>, pk: nat, constitution: Option<StokvelModels.Constitution>, today: Date)
    returns (r: Result<Member>)
    requires pk < |members.rows|
    modifies members
    ensures var m := old(members.rows[pk]);
      var done := ProbationCompletion(m, constitution, today);
      if m.status != Probation then
        r == Err(ValidationError("Member is not in probation")) && members.rows == old(members.rows)
      else if done.Err? then
        r == Err(done.error) && members.rows == old(members.rows)
      else if !done.value then
        r == Err(ValidationError("Probation period not yet completed")) && members.rows == old(members.rows)
      else
        r.Ok? && r.value.status == Active && r.value.probationEndDate == Some(today)
        && members.rows == old(members.rows)[pk := r.value]
  {
    var m := members.rows[pk];
    if m.status != Probation {
      return Err(ValidationError("Member is not in probation"));
    }
    var done := ProbationCompletion(m, constitution, today);
    if done.Err? {
      return Err(done.error);
    }
    if !done.value {
      return Err(ValidationError("Probation period not yet completed"));
    }
    ParseMemberStatusRoundTrip(Active);
    r := UpdateMemberStatus(members, pk, "active", today);
  }

  // ----- MemberBankAccountService -----

  predicate MemberHasAccount(rows: seq<MemberBankAccount>, member: nat)
  {
    exists k :: 0 <= k < |rows| && rows[k].member == member
  }

  predicate MemberHasPrimary(rows: seq<MemberBankAccount>, member: nat)
  {
    exists k :: 0 <= k < |rows| && rows[k].member == member && rows[k].isPrimary
  }

  /** Every member with an account has exactly one primary account. */
  predicate OnePrimaryPerMember(rows: seq<MemberBankAccount>)
  {
    (forall i, j :: 0 <= i < |rows| && 0 <= j < |rows| && rows[i].member == rows[j].member && rows[i].isPrimary && rows[j].isPrimary ==> i == j)
    && (forall i :: 0 <= i < |rows| ==> MemberHasPrimary(rows, rows[i].member))
  }

  /** Why `add_bank_account` refuses: a malformed number, or one the member already has. */
  function AddAccountError(rows: seq<MemberBankAccount>, member: nat, accountNumber: string): (e: Option<Error>)
    ensures e.None? <==>
      ValidationUtils.ValidateBankAccountNumber(accountNumber)
      && !exists k :: 0 <= k < |rows| && rows[k].member == member && rows[k].accountNumber == accountNumber
    ensures e.Some? ==> e.value.ValidationError?
  {
    if !ValidationUtils.ValidateBankAccountNumber(accountNumber) then Some(ValidationError("Invalid account number format"))
    else if exists k :: 0 <= k < |rows| && rows[k].member == member && rows[k].accountNumber == accountNumber then
      Some(ValidationError("This account number already exists for this member"))
    else None
  }

  /** The account `add_bank_account` creates: primary when asked, and always for the member's first account. */
  function NewMemberAccount(rows: seq<MemberBankAccount>, member: nat, bankName: string, holderName: string, accountNumber: string,
                            accountType: string, branchCode: string, isPrimary: bool): (a: MemberBankAccount)
    ensures a.member == member && a.accountNumber == accountNumber && !a.isVerified
    ensures a.isPrimary <==> isPrimary || !MemberHasAccount(rows, member)
  {
    MemberBankAccount(member, bankName, holderName, accountNumber, accountType, branchCode, isPrimary || !MemberHasAccount(rows, member), false)
  }

  /** Saving a new account keeps one primary per member when it is primary or its member already has an account. */
  lemma NewMemberAccountKeepsOnePrimary(rows: seq<MemberBankAccount>, account: MemberBankAccount)
    requires OnePrimaryPerMember(rows)
    requires account.isPrimary || MemberHasAccount(rows, account.member)
    ensures OnePrimaryPerMember(SavedMemberAccounts(rows, account, None))
  {
    var after := SavedMemberAccounts(rows, account, None);
    var n := |rows|;
    if account.isPrimary {
      SavedMemberPrimaryIsOnlyPrimary(rows, account, None);
      forall i | 0 <= i < |after|
        ensures MemberHasPrimary(after, after[i].member)
      {
        if after[i].member == account.member {
          assert after[n].member == account.member && after[n].isPrimary;
        } else {
          var p :| 0 <= p < |rows| && rows[p].member == after[i].member && rows[p].isPrimary;
          assert after[p] == rows[p];
        }
      }
    } else {
      assert after == rows + [account];
      forall i | 0 <= i < |after|
        ensures MemberHasPrimary(after, after[i].member)
      {
        var q :| 0 <= q < |rows| && rows[q].member == after[i].member;
        var p :| 0 <= p < |rows| && rows[p].member == rows[q].member && rows[p].isPrimary;
        assert after[p] == rows[p];
      }
    }
  }

  /**
   * `add_bank_account`: the checks, then the account created through
   * `MemberBankAccount.save`, which clears the member's other primary flags
   * when the new one is primary.
   */
  method AddMemberBankAccount(accounts: Table<MemberBankAccount>, member: nat, bankName: string, holderName: string,
                              accountNumber: string, accountType: string, branchCode: string, isPrimary: bool)
    returns (r: Result<nat>)
    modifies accounts
    ensures var e := AddAccountError(old(accounts.rows), member, accountNumber);
      if e.Some? then r == Err(e.value) && accounts.rows == old(accounts.rows)
      else r == Ok(|old(accounts.rows)|)
           && accounts.rows == SavedMemberAccounts(old(accounts.rows),
                NewMemberAccount(old(accounts.rows), member, bankName, holderName, accountNumber, accountType, branchCode, isPrimary), None)
    ensures OnePrimaryPerMember(old(accounts.rows)) ==> OnePrimaryPerMember(accounts.rows)
  {
    if !ValidationUtils.ValidateBankAccountNumber(accountNumber) {
      return Err(ValidationError("Invalid account number format"));
    }
    var rows := accounts.rows;
    if exists k :: 0 <= k < |rows| && rows[k].member == member && rows[k].accountNumber == accountNumber {
      return Err(ValidationError("This account number already exists for this member"));
    }
    var primary := isPrimary;
    if !exists k :: 0 <= k < |rows| && rows[k].member == member {
      primary := true;
    }
    var account := MemberBankAccount(member, bankName, holderName, accountNumber, accountType, branchCode, primary, false);
    assert account == NewMemberAccount(rows, member, bankName, holderName, accountNumber, accountType, branchCode, isPrimary);
    if OnePrimaryPerMember(rows) {
      NewMemberAccountKeepsOnePrimary(rows, account);
    }
    var pk := SaveMemberBankAccount(accounts, account, None);
    r := Ok(pk);
  }

  /** The member's accounts after `set_primary_account`: only the chosen one is primary. */
  function MemberPrimarySet(rows: seq<MemberBankAccount>, pk: nat): (r: seq<MemberBankAccount>)
    requires pk < |rows|
    ensures |r| == |rows| && r[pk] == rows[pk].(isPrimary := true)
    ensures forall i :: 0 <= i < |r| && r[i].member == rows[pk].member && r[i].isPrimary ==> i == pk
    ensures forall i :: 0 <= i < |r| && i != pk ==> r[i] == rows[i].(isPrimary := r[i].isPrimary)
    ensures forall i :: 0 <= i < |r| && rows[i].member != rows[pk].member ==> r[i] == rows[i]
  {
    ClearOtherMemberPrimaries(rows, rows[pk].member, pk)[pk := rows[pk].(isPrimary := true)]
  }

  /** Choosing a primary account keeps one primary per member. */
  lemma PrimarySetKeepsOnePrimary(rows: seq<MemberBankAccount>, pk: nat)
    requires pk < |rows| && OnePrimaryPerMember(rows)
    ensures OnePrimaryPerMember(MemberPrimarySet(rows, pk))
  {
    var after := MemberPrimarySet(rows, pk);
    forall i | 0 <= i < |after|
      ensures MemberHasPrimary(after, after[i].member)
    {
      if after[i].member == rows[pk].member {
        assert after[pk].isPrimary;
      } else {
        var p :| 0 <= p < |rows| && rows[p].member == rows[i].member && rows[p].isPrimary;
        assert after[p] == rows[p];
      }
    }
  }

  /**
   * `set_primary_account`: a bulk update clears the member's other primary
   * flags, then the account is saved as primary.
   */
  method SetMemberPrimaryAccount(accounts: Table<MemberBankAccount>, pk: nat)
    requires pk < |accounts.rows|
    modifies accounts
    ensures accounts.rows == MemberPrimarySet(old(accounts.rows), pk)
  {
    var rows := accounts.rows;
    var account := rows[pk];
    var cleared: seq<MemberBankAccount> := [];
    for i := 0 to |rows|
      invariant cleared == ClearOtherMemberPrimaries(rows[..i], account.member, pk)
    {
      var row := rows[i];
      if row.member == account.member && row.isPrimary && i != pk {
        row := row.(isPrimary := false);
      }
      cleared := cleared + [row];
    }
    assert rows[..|rows|] == rows;
    accounts.Replace(cleared);
    var _ := SaveMemberBankAccount(accounts, account.(isPrimary := true), Some(pk));
    assert ClearOtherMemberPrimaries(cleared, account.member, pk) == cleared;
  }

  /** Re-saving an account with its member and primary flag unchanged keeps one primary per member. */
  lemma ResavingKeepsOnePrimary(rows: seq<MemberBankAccount>, pk: nat, account: MemberBankAccount)
    requires pk < |rows| && OnePrimaryPerMember(rows)
    requires account.member == rows[pk].member && account.isPrimary == rows[pk].isPrimary
    ensures OnePrimaryPerMember(SavedMemberAccounts(rows, account, Some(pk)))
  {
    if account.isPrimary {
      assert ClearOtherMemberPrimaries(rows, account.member, pk) == rows;
    }
    var after := SavedMemberAccounts(rows, account, Some(pk));
    assert after == rows[pk := account];
    forall i | 0 <= i < |after|
      ensures MemberHasPrimary(after, after[i].member)
    {
      var p :| 0 <= p < |rows| && rows[p].member == rows[i].member && rows[p].isPrimary;
      assert after[p].member == rows[p].member && after[p].isPrimary;
    }
  }

  /** `verify_bank_account`: the account is marked verified and saved. */
  method VerifyMemberBankAccount(accounts: Table<MemberBankAccount>, pk: nat)
    requires pk < |accounts.rows|
    modifies accounts
    ensures accounts.rows == SavedMemberAccounts(old(accounts.rows), old(accounts.rows[pk]).(isVerified := true), Some(pk))
    ensures accounts.rows[pk].isVerified
    ensures OnePrimaryPerMember(old(accounts.rows)) ==> OnePrimaryPerMember(accounts.rows)
  {
    var account := accounts.rows[pk].(isVerified := true);
    if OnePrimaryPerMember(accounts.rows) {
      ResavingKeepsOnePrimary(accounts.rows, pk, account);
    }
    var _ := SaveMemberBankAccount(accounts, account, Some(pk));
  }

  /**
   * The error the activity-log descriptions of the three bank-account
   * services raise: they read `masked_account_number`, which a member's bank
   * account does not have (only a stokvel's bank account defines it).
   */
  const NO_MASKED_NUMBER: Error := AttributeError("masked_account_number")

  /**
   * `add_bank_account` as written: the checks and the insert run, then the
   * log description raises, and the atomic block rolls the insert back. No
   * account can be added; a refused one keeps its own error.
   */
  method AddMemberBankAccountAsWritten(accounts: Table<MemberBankAccount>, member: nat, bankName: string, holderName: string,
                                       accountNumber: string, accountType: string, branchCode: string, isPrimary: bool)
    returns (r: Result<nat>)
    modifies accounts
    ensures var e := AddAccountError(old(accounts.rows), member, accountNumber);
      r == Err(if e.Some? then e.value else NO_MASKED_NUMBER)
    ensures accounts.rows == old(accounts.rows)
  {
    var before := accounts.rows;
    r := AddMemberBankAccount(accounts, member, bankName, holderName, accountNumber, accountType, branchCode, isPrimary);
    if r.Ok? {
      accounts.Replace(before);
      r := Err(NO_MASKED_NUMBER);
    }
  }

  /**
   * `set_primary_account` as written: the flags are cleared and the account
   * is saved as primary outside any transaction, then the log description
   * raises; the caller gets the error although the change is stored.
   */
  method SetMemberPrimaryAccountAsWritten(accounts: Table<MemberBankAccount>, pk: nat) returns (r: Result<nat>)
    requires pk < |accounts.rows|
    modifies accounts
    ensures accounts.rows == MemberPrimarySet(old(accounts.rows), pk)
    ensures r == Err(NO_MASKED_NUMBER)
  {
    SetMemberPrimaryAccount(accounts, pk);
    r := Err(NO_MASKED_NUMBER);
  }

  /**
   * `verify_bank_account` as written: the account is saved verified, then the
   * log description raises; the caller gets the error although the change is stored.
   */
  method VerifyMemberBankAccountAsWritten(accounts: Table<MemberBankAccount>, pk: nat) returns (r: Result<nat>)
    requires pk < |accounts.rows|
    modifies accounts
    ensures accounts.rows == SavedMemberAccounts(old(accounts.rows), old(accounts.rows[pk]).(isVerified := true), Some(pk))
    ensures r == Err(NO_MASKED_NUMBER)
  {
    VerifyMemberBankAccount(accounts, pk);
    r := Err(NO_MASKED_NUMBER);
  }

  /** A call to `verify_bank_account` that raises has still stored a changed table when the account was unverified. */
  lemma FailedVerifyIsStored(rows: seq<MemberBankAccount>, pk: nat)
    requires pk < |rows| && !rows[pk].isVerified
    ensures var after := SavedMemberAccounts(rows, rows[pk].(isVerified := true), Some(pk));
      after != rows && after[pk].isVerified
  {
    var account := rows[pk].(isVerified := true);
    var after := SavedMemberAccounts(rows, account, Some(pk));
    if account.isPrimary {
      SavedMemberPrimaryIsOnlyPrimary(rows, account, Some(pk));
    }
    assert after[pk] == account;
  }

  /** A call to `set_primary_account` that raises has still stored a changed table when the account was not primary. */
  lemma FailedSetPrimaryIsStored(rows: seq<MemberBankAccount>, pk: nat)
    requires pk < |rows| && !rows[pk].isPrimary
    ensures MemberPrimarySet(rows, pk) != rows && MemberPrimarySet(rows, pk)[pk].isPrimary
  {
    assert MemberPrimarySet(rows, pk)[pk] == rows[pk].(isPrimary := true);
  }

  // ----- MemberValidationService -----

  /** An item `validate_member_profile_completion` reports as missing. */
  datatype ProfileGap =
    | NoFirstName | NoLastName | NoEmail | NoPhoneNumber | EmailUnverified | PhoneUnverified | NoVerifiedAccount | NoIdNumber
  {
    function Label(): string
    {
      match this
      case NoFirstName => "First name"
      case NoLastName => "Last name"
      case NoEmail => "Email address"
      case NoPhoneNumber => "Phone number"
      case EmailUnverified => "Email verification"
      case PhoneUnverified => "Phone verification"
      case NoVerifiedAccount => "Verified bank account"
      case NoIdNumber => "ID number"
    }
  }

  /** Different gaps are reported under different labels. */
  lemma LabelsDistinct(g: ProfileGap, h: ProfileGap)
    requires g != h
    ensures g.Label() != h.Label()
  {
    var a, b := g.Label(), h.Label();
    assert |a| != |b| || a[0] != b[0];
  }

  predicate HasVerifiedAccount(accounts: seq<MemberBankAccount>, member: nat)
  {
    exists k :: 0 <= k < |accounts| && accounts[k].member == member && accounts[k].isVerified
  }

  /** The order in which `validate_member_profile_completion` runs its checks. */
  const GAP_ORDER: seq<ProfileGap> :=
    [NoFirstName, NoLastName, NoEmail, NoPhoneNumber, EmailUnverified, PhoneUnverified, NoVerifiedAccount, NoIdNumber]

  /** The check behind each gap; the ID number is only required of users in South Africa. */
  predicate IsMissing(g: ProfileGap, user: User, hasVerifiedAccount: bool)
  {
    match g
    case NoFirstName => user.firstName == []
    case NoLastName => user.lastName == []
    case NoEmail => user.email == []
    case NoPhoneNumber => user.phoneNumber == []
    case EmailUnverified => !user.emailVerified
    case PhoneUnverified => !user.phoneVerified
    case NoVerifiedAccount => !hasVerifiedAccount
    case NoIdNumber => user.country == "South Africa" && user.idNumber == []
  }

  /** For each gap of `order`, whether it is missing. */
  function MissingFlags(order: seq<ProfileGap>, user: User, hasVerifiedAccount: bool): (flags: seq<bool>)
    ensures |flags| == |order| && forall k :: 0 <= k < |order| ==> flags[k] == IsMissing(order[k], user, hasVerifiedAccount)
  {
    seq(|order|, k requires 0 <= k < |order| => IsMissing(order[k], user, hasVerifiedAccount))
  }

  /** The positions in `order` of the gaps that are missing, increasing. */
  function MissingPositions(order: seq<ProfileGap>, user: User, hasVerifiedAccount: bool): (ix: seq<nat>)
    ensures forall i :: 0 <= i < |ix| ==> ix[i] < |order| && IsMissing(order[ix[i]], user, hasVerifiedAccount)
    ensures forall k :: 0 <= k < |order| && IsMissing(order[k], user, hasVerifiedAccount) ==> k in ix
    ensures forall i, j :: 0 <= i < j < |ix| ==> ix[i] < ix[j]
  {
    Positions(MissingFlags(order, user, hasVerifiedAccount))
  }

  /** The gaps of `order` that are missing, in that order: the gaps at the missing positions. */
  function MissingAmong(order: seq<ProfileGap>, user: User, hasVerifiedAccount: bool): (gaps: seq<ProfileGap>)
    ensures |gaps| == |MissingPositions(order, user, hasVerifiedAccount)|
    ensures forall i :: 0 <= i < |gaps| ==> gaps[i] == order[MissingPositions(order, user, hasVerifiedAccount)[i]]
    ensures forall g :: g in gaps <==> g in order && IsMissing(g, user, hasVerifiedAccount)
    ensures |gaps| <= |order|
  {
    var flags := MissingFlags(order, user, hasVerifiedAccount);
    var ix := MissingPositions(order, user, hasVerifiedAccount);
    var gaps := Keep(order, flags);
    assert ix == Positions(flags);
    assert forall i :: 0 <= i < |gaps| ==> gaps[i] == order[ix[i]];
    assert forall g :: g in gaps ==> g in order && IsMissing(g, user, hasVerifiedAccount) by {
      forall g | g in gaps ensures g in order && IsMissing(g, user, hasVerifiedAccount) {
        var i :| 0 <= i < |gaps| && gaps[i] == g;
        assert order[ix[i]] == g;
      }
    }
    assert forall g :: g in order && IsMissing(g, user, hasVerifiedAccount) ==> g in gaps by {
      forall g | g in order && IsMissing(g, user, hasVerifiedAccount) ensures g in gaps {
        var k :| 0 <= k < |order| && order[k] == g;
        var i :| 0 <= i < |ix| && ix[i] == k;
        assert gaps[i] == g;
      }
    }
    gaps
  }

  lemma GapOrderListsGap(g: ProfileGap)
    ensures g in GAP_ORDER
  {
    var k := match g
      case NoFirstName => 0
      case NoLastName => 1
      case NoEmail => 2
      case NoPhoneNumber => 3
      case EmailUnverified => 4
      case PhoneUnverified => 5
      case NoVerifiedAccount => 6
      case NoIdNumber => 7;
    assert GAP_ORDER[k] == g;
  }

  /** The missing items, in the order the checks run: each gap is listed exactly when its check fails. */
  function ProfileGaps(user: User, hasVerifiedAccount: bool): (gaps: seq<ProfileGap>)
    ensures forall g :: g in gaps <==> IsMissing(g, user, hasVerifiedAccount)
    ensures |gaps| <= 8
  {
    assert forall g: ProfileGap :: g in GAP_ORDER by {
      forall g: ProfileGap {
        GapOrderListsGap(g);
      }
    }
    MissingAmong(GAP_ORDER, user, hasVerifiedAccount)
  }

  function Labels(gaps: seq<ProfileGap>): (labels: seq<string>)
    ensures |labels| == |gaps| && forall k :: 0 <= k < |gaps| ==> labels[k] == gaps[k].Label()
  {
    seq(|gaps|, k requires 0 <= k < |gaps| => gaps[k].Label())
  }

  /** `validate_member_profile_completion`: complete exactly when nothing is missing, with the missing labels listed. */
  function ProfileCompletion(user: User, accounts: seq<MemberBankAccount>, member: nat): (r: (bool, seq<string>))
    ensures r.0 <==> r.1 == []
    ensures r.1 == Labels(ProfileGaps(user, HasVerifiedAccount(accounts, member)))
  {
    var missing := Labels(ProfileGaps(user, HasVerifiedAccount(accounts, member)));
    (missing == [], missing)
  }

  predicate HasVerifiedPrimary(accounts: seq<MemberBankAccount>, member: nat)
  {
    exists k :: 0 <= k < |accounts| && accounts[k].member == member && accounts[k].isPrimary && accounts[k].isVerified
  }

  /** `can_receive_payout`: an active member with a complete profile and a verified primary account. */
  function CanReceivePayout(m: Member, user: User, accounts: seq<MemberBankAccount>, member: nat): (r: (bool, string))
    ensures r.0 <==> m.status == Active && ProfileGaps(user, HasVerifiedAccount(accounts, member)) == []
                     && HasVerifiedPrimary(accounts, member)
    ensures m.status != Active ==> r.1 == "Member status is " + m.status.Name() + ", must be active"
    ensures r.0 ==> r.1 == "Eligible for payout"
  {
    if m.status != Active then (false, "Member status is " + m.status.Name() + ", must be active")
    else
      var completion := ProfileCompletion(user, accounts, member);
      if !completion.0 then (false, "Profile incomplete: " + Join(completion.1, ", "))
      else if !HasVerifiedPrimary(accounts, member) then (false, "No verified primary bank account")
      else (true, "Eligible for payout")
  }

  /** The roles `validate_leadership_eligibility` checks, by name. */
  predicate IsLeadershipRoleName(role: string)
  {
    role == "chairperson" || role == "treasurer" || role == "secretary" || role == "admin"
  }

  /** The leadership role names are exactly the known roles other than "member". */
  lemma LeadershipRoleNames(role: string)
    ensures IsLeadershipRoleName(role) <==> ParseRole(role).Some? && IsLeadershipRole(ParseRole(role).value)
  {
  }

  /**
   * `validate_leadership_eligibility`: any other role needs no check; a leader
   * must be active, approved at least 180 days ago when an approval date is
   * recorded, and have a complete profile. Subtracting 180 days from a date
   * in the calendar's first 180 days raises.
   */
  function LeadershipEligibility(m: Member, role: string, user: User, accounts: seq<MemberBankAccount>, member: nat, today: Date)
    : (r: Result<(bool, string)>)
    ensures r.Err? <==> IsLeadershipRoleName(role) && m.status == Active && m.approvalDate.Some? && Ordinal(today) - 180 < 1
    ensures r.Ok? ==> (r.value.0 <==>
      !IsLeadershipRoleName(role)
      || (m.status == Active && (m.approvalDate.None? || DaysBetween(m.approvalDate.value, today) >= 180)
          && ProfileGaps(user, HasVerifiedAccount(accounts, member)) == []))
    ensures !IsLeadershipRoleName(role) ==> r == Ok((true, "Role validation not required"))
  {
    if !IsLeadershipRoleName(role) then Ok((true, "Role validation not required"))
    else if m.status != Active then Ok((false, "Only active members can hold leadership roles"))
    else if m.approvalDate.Some? && Ordinal(today) - 180 < 1 then Err(OverflowError("date value out of range"))
    else if m.approvalDate.Some? && Ordinal(m.approvalDate.value) > Ordinal(today) - 180 then
      Ok((false, "Must be a member for at least 6 months"))
    else
      var completion := ProfileCompletion(user, accounts, member);
      if !completion.0 then Ok((false, "Profile must be complete: " + Join(completion.1, ", ")))
      else Ok((true, "Eligible for leadership role"))
  }

  /** A member found eligible for a leadership role passes `update_member_role`'s status guard for it. */
  lemma EligibleLeaderPassesStatusGuard(rows: seq<Member>, pk: nat, role: string, user: User, accounts: seq<MemberBankAccount>, today: Date)
    requires pk < |rows| && IsLeadershipRoleName(role)
    requires LeadershipEligibility(rows[pk], role, user, accounts, pk, today) == Ok((true, "Eligible for leadership role"))
    ensures RoleChangeError(rows, pk, role).None? <==> !(IsUniqueRole(ParseRole(role).value) && RoleTakenByOther(rows, pk, rows[pk].stokvel, ParseRole(role).value))
  {
    LeadershipRoleNames(role);
  }
}
