/**
 * The pure parts of `register` (api.php): the validation chain, the referral code derived
 * from the username, the uniqueness check and the row the INSERT creates.
 */
module Registration {
  import opened Wrappers
  import opened Php
  import opened Config
  import opened Users
  import opened Outcomes

  /**
   * The `if`/`elseif` chain, first failing check wins: all four fields present, then the
   * password equal to its confirmation, then at least six characters, then a well-formed
   * email (`emailValid` is what `filter_var(..., FILTER_VALIDATE_EMAIL)` answers).
   */
  function ValidateRegistration(username: string, email: string, password: string, confirm: string,
                                emailValid: bool): (r: Option<Failure>)
    ensures r.None? <==>
      !Blank(username) && !Blank(email) && !Blank(password) && !Blank(confirm)
      && password == confirm && |password| >= 6 && emailValid
    ensures r == Some(FieldsRequired) <==>
      Blank(username) || Blank(email) || Blank(password) || Blank(confirm)
    ensures r == Some(PasswordMismatch) <==>
      !Blank(username) && !Blank(email) && !Blank(password) && !Blank(confirm) && password != confirm
    ensures r == Some(PasswordTooShort) <==>
      !Blank(username) && !Blank(email) && !Blank(password) && !Blank(confirm)
      && password == confirm && |password| < 6
    ensures r == Some(InvalidEmail) <==>
      !Blank(username) && !Blank(email) && !Blank(password) && !Blank(confirm)
      && password == confirm && |password| >= 6 && !emailValid
  {
    if Blank(username) || Blank(email) || Blank(password) || Blank(confirm) then Some(FieldsRequired)
    else if password != confirm then Some(PasswordMismatch)
    else if |password| < 6 then Some(PasswordTooShort)
    else if !emailValid then Some(InvalidEmail)
    else None
  }

  /** The class `[a-zA-Z0-9]`. */
  predicate IsAsciiAlnum(c: char)
  {
    'a' <= c <= 'z' || 'A' <= c <= 'Z' || '0' <= c <= '9'
  }

  /** `preg_replace("/[^a-zA-Z0-9]/", "", s)`: the ASCII letters and digits of `s`, in order. */
  function AlnumOnly(s: string): (r: string)
    ensures |r| <= |s|
    ensures forall i :: 0 <= i < |r| ==> IsAsciiAlnum(r[i])
  {
    if s == [] then []
    else (if IsAsciiAlnum(s[0]) then [s[0]] else []) + AlnumOnly(s[1..])
  }

  /** Filtering a concatenation filters each part: the kept characters stay in their order. */
  lemma {:induction false} AlnumOnlyAppend(s: string, t: string)
    ensures AlnumOnly(s + t) == AlnumOnly(s) + AlnumOnly(t)
  {
    if s == [] {
      assert s + t == t;
    } else {
      assert (s + t)[0] == s[0] && (s + t)[1..] == s[1..] + t;
      AlnumOnlyAppend(s[1..], t);
    }
  }

  /** Every letter or digit is kept as often as it occurs; every other character is dropped. */
  lemma {:induction false} AlnumOnlyCounts(s: string, c: char)
    ensures multiset(AlnumOnly(s))[c] == if IsAsciiAlnum(c) then multiset(s)[c] else 0
  {
    if s != [] {
      AlnumOnlyCounts(s[1..], c);
      assert s == [s[0]] + s[1..];
      assert multiset(s) == multiset([s[0]]) + multiset(s[1..]);
    }
  }

  /** A string is left as it is exactly when it holds only letters and digits. */
  lemma {:induction false} AlnumOnlyFixedPoint(s: string)
    ensures AlnumOnly(s) == s <==> forall i :: 0 <= i < |s| ==> IsAsciiAlnum(s[i])
  {
    if s != [] {
      AlnumOnlyFixedPoint(s[1..]);
      if AlnumOnly(s) == s {
        assert IsAsciiAlnum(AlnumOnly(s)[0]);
      }
      if forall i :: 0 <= i < |s| ==> IsAsciiAlnum(s[i]) {
        assert forall i :: 0 <= i < |s[1..]| ==> IsAsciiAlnum(s[1..][i]) by {
          forall i | 0 <= i < |s[1..]| ensures IsAsciiAlnum(s[1..][i]) {
            assert s[1..][i] == s[i + 1];
          }
        }
        assert s == [s[0]] + s[1..];
      }
    }
  }

  /** `"AST" . preg_replace("/[^a-zA-Z0-9]/", "", $username)`. */
  function ReferralCode(username: string): (code: string)
    ensures |code| >= 3 && code[..3] == "AST"
    ensures forall i :: 3 <= i < |code| ==> IsAsciiAlnum(code[i])
  {
    "AST" + AlnumOnly(username)
  }

  /** Deriving the code again from a code's own tail gives the same code. */
  lemma ReferralCodeStable(username: string)
    ensures ReferralCode(ReferralCode(username)[3..]) == ReferralCode(username)
  {
    var code := ReferralCode(username);
    assert code[3..] == AlnumOnly(username);
    AlnumOnlyFixedPoint(AlnumOnly(username));
  }

  /** `SELECT user_id FROM users WHERE username = :username OR email = :email` finds a row. */
  predicate NameOrEmailInUse(users: map<UserId, User>, username: string, email: string): (r: bool)
    ensures !r ==> forall id :: id in users ==> users[id].username != username && users[id].email != email
    ensures forall id :: id in users && (users[id].username == username || users[id].email == email) ==> r
  {
    exists id :: id in users && (users[id].username == username || users[id].email == email)
  }

  /** Some row already holds the referral code that `username` would be given. */
  predicate CodeInUse(users: map<UserId, User>, username: string)
  {
    exists id :: id in users && users[id].referralCode == ReferralCode(username)
  }

  /**
   * The uniqueness check before the INSERT, with the derived referral code checked as well
   * (the source checks only username and email; see README, Findings).
   */
  function RegistrationConflict(users: map<UserId, User>, username: string, email: string): (r: Option<Failure>)
    ensures r.None? ==> forall id :: id in users ==>
      users[id].username != username && users[id].email != email
      && users[id].referralCode != ReferralCode(username)
    ensures r.Some? ==> NameOrEmailInUse(users, username, email) || CodeInUse(users, username)
    ensures NameOrEmailInUse(users, username, email) ==> r == Some(UsernameOrEmailTaken)
  {
    if NameOrEmailInUse(users, username, email) then Some(UsernameOrEmailTaken)
    else if CodeInUse(users, username) then Some(ReferralCodeTaken)
    else None
  }

  /**
   * The values the `users` table gives the columns the INSERT does not name. The table's
   * definition is not part of this model; `DefaultsOk` states what the handlers assume of it.
   */
  datatype ColumnDefaults = ColumnDefaults(
    points: int,
    spinsLeftToday: int,
    adsWatchedToday: int,
    spinAdsWatchedToday: int,
    used4600Withdrawal: bool,
    totalReferralsMade: int)

  ghost predicate DefaultsOk(d: ColumnDefaults)
  {
    && d.points >= 0
    && 0 <= d.adsWatchedToday <= MAX_ADS_PER_DAY
    && 0 <= d.spinAdsWatchedToday <= MAX_SPIN_ADS_PER_DAY
    && 0 <= d.spinsLeftToday <= MAX_FREE_SPINS_PER_DAY + SPINS_GAINED_PER_AD * d.spinAdsWatchedToday
    && !d.used4600Withdrawal
    && d.totalReferralsMade >= 0
  }

  /** The row the INSERT creates: today's date as last activity, so no reset runs today. */
  function NewRow(d: ColumnDefaults, username: string, email: string, passwordHash: string,
                  tasks: map<int, bool>, today: string): (u: User)
    ensures u.referralCode == ReferralCode(username) && u.referredByUserId.None?
    ensures u.lastActivityDate == Some(today) && u.dailyTasksStatus == tasks
    ensures DefaultsOk(d) && tasks.Keys == TaskIds ==> RowOk(u) && !u.used4600Withdrawal
    ensures !NeedsReset(u, today)
  {
    LexLessIrreflexive(today);
    User(username, email, passwordHash, d.points, d.spinsLeftToday, d.adsWatchedToday,
         d.spinAdsWatchedToday, tasks, d.used4600Withdrawal, Some(today), ReferralCode(username),
         None, d.totalReferralsMade)
  }

  /** Two different usernames can be given the same referral code. */
  lemma ReferralCodeNotInjective()
    ensures ReferralCode("a_b") == ReferralCode("ab") == "ASTab"
  {
    assert AlnumOnly("b") == "b";
    assert AlnumOnly("_b") == "b";
    assert AlnumOnly("a_b") == "ab";
    assert AlnumOnly("ab") == "ab";
  }

  /**
   * As written, the check before the INSERT admits "a_b" next to an existing "ab", and the
   * table that results holds one referral code twice.
   */
  lemma DuplicateCodeAsWritten(d: ColumnDefaults, tasks: map<int, bool>, day: string)
    requires DefaultsOk(d) && tasks.Keys == TaskIds
    ensures var users := map[1 := NewRow(d, "ab", "ab@example.com", "h1", tasks, day)];
      && WellFormed(users)
      && !NameOrEmailInUse(users, "a_b", "a_b@example.com")
      && !WellFormed(users[2 := NewRow(d, "a_b", "a_b@example.com", "h2", tasks, day)])
  {
    ReferralCodeNotInjective();
    var users := map[1 := NewRow(d, "ab", "ab@example.com", "h1", tasks, day)];
    var after := users[2 := NewRow(d, "a_b", "a_b@example.com", "h2", tasks, day)];
    assert after[1].referralCode == after[2].referralCode;
    assert !DistinctAt(after, 1, 2);
  }

  /** With the code checked too, the same registration is refused. */
  lemma DuplicateCodeRefused(d: ColumnDefaults, tasks: map<int, bool>, day: string)
    ensures var users := map[1 := NewRow(d, "ab", "ab@example.com", "h1", tasks, day)];
      RegistrationConflict(users, "a_b", "a_b@example.com") == Some(ReferralCodeTaken)
  {
    ReferralCodeNotInjective();
    var users := map[1 := NewRow(d, "ab", "ab@example.com", "h1", tasks, day)];
    assert users[1].referralCode == ReferralCode("a_b");
  }
}
