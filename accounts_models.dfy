/**
 * The accounts app's records (accounts/models.py): users and their address,
 * members with their status, role, member number and bank reference names,
 * members' bank accounts with the "one primary account" save, and membership
 * applications with their approve and reject steps.
 */
module AccountsModels
{
  import opened Common
  import opened Strings
  import opened Dates
  import opened Tables

  datatype User = User(
    username: string,
    firstName: string,
    lastName: string,
    email: string,
    phoneNumber: string,
    dateOfBirth: Option<Date>,
    idNumber: string,
    addressLine1: string,
    addressLine2: string,
    city: string,
    province: string,
    postalCode: string,
    country: string,
    preferredLanguage: string,
    emailNotifications: bool,
    smsNotifications: bool,
    whatsappNotifications: bool,
    isVerified: bool,
    emailVerified: bool,
    phoneVerified: bool)
  {
    /** The address lines in the order `get_full_address` lists them. */
    function AddressParts(): seq<string>
    {
      [addressLine1, addressLine2, city, province, postalCode, country]
    }
  }

  /** A fresh user: every optional field blank, the country South Africa, e-mail notifications on. */
  function NewUser(username: string, email: string): (u: User)
    ensures u.username == username && u.email == email && u.country == "South Africa"
    ensures !u.isVerified && !u.emailVerified && !u.phoneVerified
  {
    User(username, "", "", email, "", None, "", "", "", "", "", "", "South Africa", "en", true, false, false, false, false, false)
  }

  function NonEmptyParts(parts: seq<string>): (kept: seq<string>)
    ensures |kept| <= |parts|
    ensures forall k :: 0 <= k < |kept| ==> kept[k] != [] && kept[k] in parts
    ensures kept == [] <==> forall k :: 0 <= k < |parts| ==> parts[k] == []
  {
    if parts == [] then []
    else if parts[0] == [] then NonEmptyParts(parts[1..])
    else [parts[0]] + NonEmptyParts(parts[1..])
  }

  /** `get_full_address`: the non-empty address parts, in order, joined by ", ". */
  function FullAddress(user: User): string
  {
    Join(NonEmptyParts(user.AddressParts()), ", ")
  }

  /** The address is empty exactly when every part is, and otherwise holds every kept part plus two characters between neighbours. */
  lemma FullAddressLength(user: User)
    ensures FullAddress(user) == [] <==> forall k :: 0 <= k < 6 ==> user.AddressParts()[k] == []
    ensures var kept := NonEmptyParts(user.AddressParts());
      kept != [] ==> |FullAddress(user)| == TotalLength(kept) + 2 * (|kept| - 1)
  {
    var kept := NonEmptyParts(user.AddressParts());
    JoinLength(kept, ", ");
    if kept != [] {
      TotalLengthOfNonEmpty(kept);
    }
  }

  lemma {:induction false} TotalLengthOfNonEmpty(parts: seq<string>)
    requires parts != [] && forall k :: 0 <= k < |parts| ==> parts[k] != []
    ensures TotalLength(parts) >= 1
  {
  }

  /** A user who filled in only the country gets just the country, with no separators. */
  lemma CountryOnlyAddress(user: User)
    requires user.addressLine1 == [] && user.addressLine2 == [] && user.city == [] && user.province == [] && user.postalCode == []
    requires user.country != []
    ensures FullAddress(user) == user.country
  {
    var p := user.AddressParts();
    assert NonEmptyParts(p[5..]) == [user.country] by { assert p[5..][1..] == []; }
    assert NonEmptyParts(p[4..]) == NonEmptyParts(p[5..]) by { assert p[4..][1..] == p[5..]; }
    assert NonEmptyParts(p[3..]) == NonEmptyParts(p[4..]) by { assert p[3..][1..] == p[4..]; }
    assert NonEmptyParts(p[2..]) == NonEmptyParts(p[3..]) by { assert p[2..][1..] == p[3..]; }
    assert NonEmptyParts(p[1..]) == NonEmptyParts(p[2..]) by { assert p[1..][1..] == p[2..]; }
    assert NonEmptyParts(p) == [user.country];
  }

  datatype MemberStatus = MemberPending | Probation | Active | Suspended | Inactive | Exited | MemberRejected
  {
    function Name(): string
    {
      match this
      case MemberPending => "pending"
      case Probation => "probation"
      case Active => "active"
      case Suspended => "suspended"
      case Inactive => "inactive"
      case Exited => "exited"
      case MemberRejected => "rejected"
    }
  }

  /** The status a stored string names; "rejected" is reachable through the transition table although the field's choices omit it. */
  function ParseMemberStatus(s: string): (r: Option<MemberStatus>)
    ensures r.Some? ==> r.value.Name() == s
  {
    if s == "pending" then Some(MemberPending)
    else if s == "probation" then Some(Probation)
    else if s == "active" then Some(Active)
    else if s == "suspended" then Some(Suspended)
    else if s == "inactive" then Some(Inactive)
    else if s == "exited" then Some(Exited)
    else if s == "rejected" then Some(MemberRejected)
    else None
  }

  lemma ParseMemberStatusRoundTrip(status: MemberStatus)
    ensures ParseMemberStatus(status.Name()) == Some(status)
  {
  }

  datatype Role = RoleMember | Secretary | Treasurer | Chairperson | Admin
  {
    function Name(): string
    {
      match this
      case RoleMember => "member"
      case Secretary => "secretary"
      case Treasurer => "treasurer"
      case Chairperson => "chairperson"
      case Admin => "admin"
    }
  }

  function ParseRole(s: string): (r: Option<Role>)
    ensures r.Some? ==> r.value.Name() == s
  {
    if s == "member" then Some(RoleMember)
    else if s == "secretary" then Some(Secretary)
    else if s == "treasurer" then Some(Treasurer)
    else if s == "chairperson" then Some(Chairperson)
    else if s == "admin" then Some(Admin)
    else None
  }

  lemma ParseRoleRoundTrip(role: Role)
    ensures ParseRole(role.Name()) == Some(role)
  {
  }

  datatype Member = Member(
    user: nat,
    stokvel: nat,
    memberNumber: string,
    role: Role,
    status: MemberStatus,
    applicationDate: Date,
    approvalDate: Option<Date>,
    probationEndDate: Option<Date>,
    exitDate: Option<Date>,
    bankReferenceNames: string,
    emergencyContactName: string,
    emergencyContactPhone: string,
    applicationNotes: string)
  {
    predicate IsActiveMember()
    {
      status == Active
    }

    predicate IsInProbation()
    {
      status == Probation
    }
  }

  /** A member is never both active and in probation. */
  lemma ActiveAndProbationExclusive(member: Member)
    ensures !(member.IsActiveMember() && member.IsInProbation())
    ensures member.IsActiveMember() <==> member.status.Name() == "active"
    ensures member.IsInProbation() <==> member.status.Name() == "probation"
  {
  }

  /** `stokvel.members.count()`: the members of the stokvel. */
  function MemberCount(members: seq<Member>, stokvel: nat): (n: nat)
    ensures n <= |members|
  {
    if members == [] then 0
    else MemberCount(members[..|members| - 1], stokvel) + (if members[|members| - 1].stokvel == stokvel then 1 else 0)
  }

  /** `stokvel.members.filter(status=...).count()`: the members of the stokvel with the given status. */
  function StatusCount(members: seq<Member>, stokvel: nat, status: MemberStatus): (n: nat)
    ensures n <= MemberCount(members, stokvel)
  {
    if members == [] then 0
    else
      var last := members[|members| - 1];
      StatusCount(members[..|members| - 1], stokvel, status) + (if last.stokvel == stokvel && last.status == status then 1 else 0)
  }

  /** `get_bank_reference_list`: nothing for a blank field, otherwise each comma-separated name with whitespace trimmed. */
  function BankReferenceList(names: string): (list: seq<string>)
    ensures names == [] ==> list == []
    ensures names != [] ==> |list| == Count(names, ',') + 1
    ensures forall k :: 0 <= k < |list| ==> ',' !in list[k]
    ensures forall k :: 0 <= k < |list| && list[k] != [] ==> !IsSpace(list[k][0]) && !IsSpace(list[k][|list[k]| - 1])
    ensures names != [] ==> forall k :: 0 <= k < |list| ==> list[k] == Strip(Split(names, ',')[k])
  {
    if names == [] then []
    else
      var parts := Split(names, ',');
      seq(|parts|, k requires 0 <= k < |parts| => StripKeepsOut(parts[k], ','); Strip(parts[k]))
  }

  /** Names typed without spaces around the commas come back as the field's own pieces, which join to the field again. */
  lemma BankReferenceListRoundTrip(names: string)
    requires names != []
    requires forall k :: 0 <= k < |Split(names, ',')| && Split(names, ',')[k] != [] ==>
      !IsSpace(Split(names, ',')[k][0]) && !IsSpace(Split(names, ',')[k][|Split(names, ',')[k]| - 1])
    ensures BankReferenceList(names) == Split(names, ',')
    ensures Join(BankReferenceList(names), [',']) == names
  {
    var parts := Split(names, ',');
    var list := BankReferenceList(names);
    forall k | 0 <= k < |parts|
      ensures list[k] == parts[k]
    {
      StripKeepsTrimmed(parts[k]);
    }
    SplitJoinRoundTrip(names, ',');
  }

  /** Stripping only removes characters, so a character absent before is absent after. */
  lemma StripKeepsOut(s: string, c: char)
    requires c !in s
    ensures c !in Strip(s)
  {
    var l := TrimLeft(s);
    var r := TrimRight(l);
    forall i | 0 <= i < |r|
      ensures r[i] != c
    {
      assert r[i] == l[i] == s[|s| - |l| + i];
    }
  }

  /** The member numbers of one stokvel, in key order. */
  function StokvelNumbers(rows: seq<Member>, stokvel: nat): (numbers: seq<string>)
    ensures forall s :: s in numbers <==> exists k :: 0 <= k < |rows| && rows[k].stokvel == stokvel && rows[k].memberNumber == s
  {
    if rows == [] then []
    else
      var rest := StokvelNumbers(rows[..|rows| - 1], stokvel);
      var last := rows[|rows| - 1];
      assert forall k :: 0 <= k < |rows| - 1 ==> rows[..|rows| - 1][k] == rows[k];
      if last.stokvel == stokvel then rest + [last.memberNumber] else rest
  }

  /** The highest number that is all digits, or 0 when there is none. */
  function MaxNumeric(numbers: seq<string>): (m: nat)
    ensures forall k :: 0 <= k < |numbers| && IsDigits(numbers[k]) ==> ParseDigits(numbers[k]) <= m
  {
    if numbers == [] then 0
    else
      var rest := MaxNumeric(numbers[..|numbers| - 1]);
      var last := numbers[|numbers| - 1];
      assert forall k :: 0 <= k < |numbers| - 1 ==> numbers[..|numbers| - 1][k] == numbers[k];
      if IsDigits(last) && ParseDigits(last) > rest then ParseDigits(last) else rest
  }

  /** A member number: `str(n).zfill(3)`. */
  function FormatMemberNumber(n: nat): (number: string)
    ensures IsDigits(number) && |number| >= 3 && ParseDigits(number) == n
  {
    var digits := NatToString(n);
    ParseNatToString(n);
    ParseIgnoresLeadingZeros(if |digits| < 3 then 3 - |digits| else 0, digits);
    ZeroFill(digits, 3)
  }

  /** The number a new member is given: one more than the highest numeric member number of the stokvel. */
  function NextMemberNumber(numbers: seq<string>): (number: string)
    ensures number !in numbers
    ensures IsDigits(number) && ParseDigits(number) == MaxNumeric(numbers) + 1
  {
    var number := FormatMemberNumber(MaxNumeric(numbers) + 1);
    assert forall k :: 0 <= k < |numbers| ==> numbers[k] != number;
    number
  }

  /** The highest non-empty number under string ordering: the member `order_by('-member_number').first()` returns. */
  function LastByStringOrder(numbers: seq<string>): (last: Option<string>)
    ensures last.None? <==> forall k :: 0 <= k < |numbers| ==> numbers[k] == []
    ensures last.Some? ==> last.value != [] && last.value in numbers
    ensures last.Some? ==> forall k :: 0 <= k < |numbers| && numbers[k] != [] ==> !LexLess(last.value, numbers[k])
  {
    if numbers == [] then None
    else
      var rest := LastByStringOrder(numbers[..|numbers| - 1]);
      var x := numbers[|numbers| - 1];
      assert forall k :: 0 <= k < |numbers| - 1 ==> numbers[..|numbers| - 1][k] == numbers[k];
      if x == [] then rest
      else if rest.None? then
        LexLessAsymmetric(x, x);
        Some(x)
      else if LexLess(rest.value, x) then
        LexLessAsymmetric(x, x);
        LastAboveRest(numbers[..|numbers| - 1], rest.value, x);
        Some(x)
      else
        LexLessTotal(rest.value, x);
        LexLessAsymmetric(rest.value, x);
        rest
  }

  lemma LastAboveRest(numbers: seq<string>, best: string, x: string)
    requires LexLess(best, x)
    requires forall k :: 0 <= k < |numbers| && numbers[k] != [] ==> !LexLess(best, numbers[k])
    ensures forall k :: 0 <= k < |numbers| && numbers[k] != [] ==> !LexLess(x, numbers[k])
  {
    forall k | 0 <= k < |numbers| && numbers[k] != []
      ensures !LexLess(x, numbers[k])
    {
      if LexLess(x, numbers[k]) {
        LexLessTransitive(best, x, numbers[k]);
      }
    }
  }

  /** The number `Member.save` assigns as written: one more than the highest number under string ordering, or 1. */
  function NextMemberNumberAsWritten(numbers: seq<string>): string
  {
    var last := LastByStringOrder(numbers);
    if last.Some? && IsDigits(last.value) then FormatMemberNumber(ParseDigits(last.value) + 1)
    else FormatMemberNumber(1)
  }

  /** As written, a stokvel with members "999" and "1000" hands out "1000" a second time: "999" sorts above "1000". */
  lemma StringOrderRepeatsNumber()
    ensures NextMemberNumberAsWritten(["999", "1000"]) == "1000"
    ensures "1000" in ["999", "1000"]
    ensures NextMemberNumber(["999", "1000"]) == "1001"
  {
    var numbers := ["999", "1000"];
    assert LexLess("1000", "999");
    LexLessAsymmetric("1000", "999");
    assert LastByStringOrder(numbers[..1]) == Some("999");
    assert LastByStringOrder(numbers) == Some("999");
    assert ParseDigits("999") == 999 by {
      assert "999"[..2] == "99" && "99"[..1] == "9" && "9"[..0] == [];
    }
    NatToStringAt(1000, "1000");
    assert MaxNumeric(numbers[..1]) == 999;
    assert ParseDigits("1000") == 1000 by {
      assert "1000"[..3] == "100" && "100"[..2] == "10" && "10"[..1] == "1" && "1"[..0] == [];
    }
    assert MaxNumeric(numbers) == 1000;
    NatToStringAt(1001, "1001");
  }

  lemma NatToStringAt(n: nat, s: string)
    requires 1000 <= n < 10000 && |s| == 4 && AllDigits(s)
    requires DigitValue(s[0]) == n / 1000 && DigitValue(s[1]) == n / 100 % 10
    requires DigitValue(s[2]) == n / 10 % 10 && DigitValue(s[3]) == n % 10
    ensures NatToString(n) == s
  {
    assert NatToString(n / 1000) == [s[0]];
    assert NatToString(n / 100) == [s[0], s[1]];
    assert NatToString(n / 10) == [s[0], s[1], s[2]];
  }

  /**
   * `Member.save`: a blank member number is replaced by the stokvel's next
   * number before the row is written; a non-blank one is kept.
   */
  method SaveMember(members: Table<Member>, member: Member, pk: Option<nat>) returns (id: nat, saved: Member)
    requires pk.Some? ==> pk.value < |members.rows|
    modifies members
    ensures member.memberNumber != [] ==> saved == member
    ensures member.memberNumber == [] ==>
      saved == member.(memberNumber := NextMemberNumber(StokvelNumbers(old(members.rows), member.stokvel)))
    ensures id == if pk.Some? then pk.value else |old(members.rows)|
    ensures members.rows == if pk.Some? then old(members.rows)[id := saved] else old(members.rows) + [saved]
  {
    saved := member;
    if member.memberNumber == [] {
      var rows := members.rows;
      var highest := 0;
      for i := 0 to |rows|
        invariant highest == MaxNumeric(StokvelNumbers(rows[..i], member.stokvel))
      {
        assert rows[..i + 1][..i] == rows[..i];
        var number := rows[i].memberNumber;
        if rows[i].stokvel == member.stokvel && IsDigits(number) && ParseDigits(number) > highest {
          highest := ParseDigits(number);
        }
      }
      assert rows[..|rows|] == rows;
      saved := member.(memberNumber := FormatMemberNumber(highest + 1));
    }
    if pk.Some? {
      id := pk.value;
      members.Save(id, saved);
    } else {
      id := members.Create(saved);
    }
  }

  /** A newly numbered member never shares a number with another member of the same stokvel. */
  lemma NewMemberNumberIsUnique(rows: seq<Member>, member: Member)
    requires member.memberNumber == []
    ensures var number := NextMemberNumber(StokvelNumbers(rows, member.stokvel));
      forall k :: 0 <= k < |rows| && rows[k].stokvel == member.stokvel ==> rows[k].memberNumber != number
  {
  }

  datatype MemberBankAccount = MemberBankAccount(
    member: nat,
    bankName: string,
    accountHolderName: string,
    accountNumber: string,
    accountType: string,
    branchCode: string,
    isPrimary: bool,
    isVerified: bool)

  /** The bulk update that clears `is_primary` on the member's accounts other than `keep`. */
  function ClearOtherMemberPrimaries(rows: seq<MemberBankAccount>, member: nat, keep: int): seq<MemberBankAccount>
  {
    seq(|rows|, i requires 0 <= i < |rows| =>
      if rows[i].member == member && rows[i].isPrimary && i != keep then rows[i].(isPrimary := false) else rows[i])
  }

  /** The table after `MemberBankAccount.save`: an existing key is overwritten, otherwise the row is appended. */
  function SavedMemberAccounts(rows: seq<MemberBankAccount>, account: MemberBankAccount, pk: Option<nat>): seq<MemberBankAccount>
    requires pk.Some? ==> pk.value < |rows|
  {
    var key := if pk.Some? then pk.value else |rows|;
    var cleared := if account.isPrimary then ClearOtherMemberPrimaries(rows, account.member, key) else rows;
    if pk.Some? then cleared[key := account] else cleared + [account]
  }

  /** After saving a primary account it is the member's only primary account; other rows keep their other fields. */
  lemma {:induction false} SavedMemberPrimaryIsOnlyPrimary(rows: seq<MemberBankAccount>, account: MemberBankAccount, pk: Option<nat>)
    requires pk.Some? ==> pk.value < |rows|
    requires account.isPrimary
    ensures var saved, key := SavedMemberAccounts(rows, account, pk), if pk.Some? then pk.value else |rows|;
      key < |saved| && saved[key] == account
      && (forall i :: 0 <= i < |saved| && saved[i].member == account.member && saved[i].isPrimary ==> i == key)
      && (forall i :: 0 <= i < |rows| && i != key ==> saved[i] == rows[i].(isPrimary := saved[i].isPrimary))
  {
  }

  /** `MemberBankAccount.save`: a primary account first clears the member's other primary flags. */
  method SaveMemberBankAccount(accounts: Table<MemberBankAccount>, account: MemberBankAccount, pk: Option<nat>)
    returns (id: nat)
    requires pk.Some? ==> pk.value < |accounts.rows|
    modifies accounts
    ensures id == if pk.Some? then pk.value else |old(accounts.rows)|
    ensures accounts.rows == SavedMemberAccounts(old(accounts.rows), account, pk)
  {
    var rows := accounts.rows;
    id := if pk.Some? then pk.value else |rows|;
    if account.isPrimary {
      var cleared: seq<MemberBankAccount> := [];
      for i := 0 to |rows|
        invariant cleared == ClearOtherMemberPrimaries(rows[..i], account.member, id)
      {
        var row := rows[i];
        if row.member == account.member && row.isPrimary && i != id {
          row := row.(isPrimary := false);
        }
        cleared := cleared + [row];
      }
      assert rows[..|rows|] == rows;
      accounts.Replace(cleared);
    }
    if pk.Some? {
      accounts.Save(id, account);
    } else {
      id := accounts.Create(account);
    }
  }

  datatype ApplicationStatus = Submitted | UnderReview | ApplicationApproved | ApplicationRejected | Withdrawn

  datatype MembershipApplication = MembershipApplication(
    user: nat,
    stokvel: nat,
    status: ApplicationStatus,
    motivation: string,
    referralSource: string,
    referredBy: Option<nat>,
    reviewedBy: Option<nat>,
    reviewDate: Option<DateTime>,
    reviewNotes: string,
    submittedDate: DateTime,
    decisionDate: Option<DateTime>)

  /** The member record `approve` creates: in probation, approved today, with the motivation as application notes. */
  function ProbationMember(application: MembershipApplication, today: Date): (m: Member)
    ensures m.user == application.user && m.stokvel == application.stokvel
    ensures m.status == Probation && m.approvalDate == Some(today) && m.role == RoleMember && m.memberNumber == []
  {
    Member(application.user, application.stokvel, "", RoleMember, Probation, today, Some(today), None, None, "", "", "", application.motivation)
  }

  predicate IsMemberOf(rows: seq<Member>, user: nat, stokvel: nat)
  {
    exists k :: 0 <= k < |rows| && rows[k].user == user && rows[k].stokvel == stokvel
  }

  /**
   * `MembershipApplication.approve`: the application is marked approved with
   * the reviewer and dates, and a probation member is created, numbered by
   * `Member.save`. A member row for the same user and stokvel makes the
   * create fail on the unique constraint; the surrounding transaction then
   * leaves both tables as they were.
   */
  method Approve(applications: Table<MembershipApplication>, members: Table<Member>, pk: nat, reviewer: nat, notes: string, now: DateTime)
    returns (r: Result<nat>)
    requires pk < |applications.rows|
    modifies applications, members
    ensures var a := old(applications.rows[pk]);
      if IsMemberOf(old(members.rows), a.user, a.stokvel) then
        r == Err(IntegrityError("member already exists")) && applications.rows == old(applications.rows) && members.rows == old(members.rows)
      else
        r == Ok(|old(members.rows)|)
        && applications.rows == old(applications.rows)[pk := a.(status := ApplicationApproved, reviewedBy := Some(reviewer),
             reviewDate := Some(now), decisionDate := Some(now), reviewNotes := notes)]
        && members.rows == old(members.rows) + [ProbationMember(a, now.date).(memberNumber := NextMemberNumber(StokvelNumbers(old(members.rows), a.stokvel)))]
  {
    var a := applications.rows[pk];
    if exists k :: 0 <= k < |members.rows| && members.rows[k].user == a.user && members.rows[k].stokvel == a.stokvel {
      return Err(IntegrityError("member already exists"));
    }
    applications.Save(pk, a.(status := ApplicationApproved, reviewedBy := Some(reviewer), reviewDate := Some(now),
                             decisionDate := Some(now), reviewNotes := notes));
    var id, _ := SaveMember(members, ProbationMember(a, now.date), None);
    r := Ok(id);
  }

  /** `MembershipApplication.reject`: the application is marked rejected with the reviewer and dates; no member is created. */
  method Reject(applications: Table<MembershipApplication>, pk: nat, reviewer: nat, notes: string, now: DateTime)
    requires pk < |applications.rows|
    modifies applications
    ensures applications.rows == old(applications.rows)[pk := old(applications.rows[pk]).(status := ApplicationRejected,
              reviewedBy := Some(reviewer), reviewDate := Some(now), decisionDate := Some(now), reviewNotes := notes)]
  {
    var a := applications.rows[pk];
    applications.Save(pk, a.(status := ApplicationRejected, reviewedBy := Some(reviewer), reviewDate := Some(now),
                             decisionDate := Some(now), reviewNotes := notes));
  }
}
