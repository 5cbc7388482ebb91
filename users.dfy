/**
 * The `users` row and the daily reset policy (db_config.php, checkAndResetDailyLimits),
 * stated as functions on rows; the `Ledger` class applies them in place.
 */
module Users {
  import opened Wrappers
  import opened Php
  import opened Config
  import opened UtcDate

  /** `user_id`, an auto-increment key starting at 1. */
  type UserId = nat

  datatype User = User(
    username: string,
    email: string,
    passwordHash: string,
    points: int,
    spinsLeftToday: int,
    adsWatchedToday: int,
    spinAdsWatchedToday: int,
    dailyTasksStatus: map<int, bool>,
    used4600Withdrawal: bool,
    lastActivityDate: Option<string>,
    referralCode: string,
    referredByUserId: Option<UserId>,
    totalReferralsMade: int)

  /**
   * What a handler sees for an id with no row: the fetch yields `false`, and every column
   * read from it is null, which PHP's arithmetic and comparisons treat as 0, false or "".
   */
  const NullRow: User := User("", "", "", 0, 0, 0, 0, map[], false, None, "", None, 0)

  /** `SELECT ... WHERE user_id = :id`, with `NullRow` for a missing row. */
  function Read(users: map<UserId, User>, id: UserId): (r: User)
    ensures id in users ==> r == users[id]
    ensures id !in users ==>
      && r.points == 0 && r.spinsLeftToday == 0 && r.adsWatchedToday == 0 && r.spinAdsWatchedToday == 0
      && r.dailyTasksStatus == map[] && r.lastActivityDate.None? && r.referredByUserId.None?
      && !r.used4600Withdrawal
  {
    if id in users then users[id] else NullRow
  }

  /** `UPDATE users SET ... WHERE user_id = :id`: changes nothing when no row matches. */
  function Write(users: map<UserId, User>, id: UserId, u: User): (r: map<UserId, User>)
    ensures r.Keys == users.Keys
    ensures id in users ==> r[id] == u
    ensures forall k :: k in users && k != id ==> r[k] == users[k]
  {
    if id in users then users[id := u] else users
  }

  /** The bounds every stored row keeps. Spins are not capped at 20: ads add 2 each on top. */
  ghost predicate RowOk(u: User)
  {
    && u.points >= 0
    && 0 <= u.adsWatchedToday <= MAX_ADS_PER_DAY
    && 0 <= u.spinAdsWatchedToday <= MAX_SPIN_ADS_PER_DAY
    && 0 <= u.spinsLeftToday <= MAX_FREE_SPINS_PER_DAY + SPINS_GAINED_PER_AD * u.spinAdsWatchedToday
    && u.dailyTasksStatus.Keys == TaskIds
    && u.totalReferralsMade >= 0
  }

  /** The columns that identify a user and that no handler changes. */
  predicate SameIdentity(u: User, v: User)
  {
    u.username == v.username && u.email == v.email && u.referralCode == v.referralCode
  }

  /** The row at `id`, if there is one, keeps the bounds. */
  ghost predicate RowOkAt(users: map<UserId, User>, id: UserId)
  {
    id in users ==> RowOk(users[id])
  }

  /** The row at `id`, if there is one, names no referrer or another existing user. */
  ghost predicate LinkOkAt(users: map<UserId, User>, id: UserId)
  {
    id in users && users[id].referredByUserId.Some? ==>
      users[id].referredByUserId.value != id && users[id].referredByUserId.value in users
  }

  /** Two different rows share no username, no email and no referral code. */
  ghost predicate DistinctAt(users: map<UserId, User>, a: UserId, b: UserId)
  {
    a in users && b in users && a != b ==>
      && users[a].username != users[b].username
      && users[a].email != users[b].email
      && users[a].referralCode != users[b].referralCode
  }

  /**
   * The table as a whole: every row within bounds, a referrer link names another existing
   * user, and usernames, emails and referral codes are unique.
   */
  ghost predicate WellFormed(users: map<UserId, User>)
  {
    && (forall id :: RowOkAt(users, id))
    && (forall id :: LinkOkAt(users, id))
    && (forall a, b :: DistinctAt(users, a, b))
  }

  /**
   * Rewriting one row keeps the table well formed when the new row keeps its identity,
   * keeps the bounds the old row kept, and sets a referrer link only to another existing user.
   */
  lemma WriteKeepsWellFormed(users: map<UserId, User>, id: UserId, u: User)
    requires WellFormed(users)
    requires id in users ==> SameIdentity(users[id], u) && (RowOk(users[id]) ==> RowOk(u))
    requires id in users && u.referredByUserId != users[id].referredByUserId ==>
      u.referredByUserId.Some? && u.referredByUserId.value != id && u.referredByUserId.value in users
    ensures WellFormed(Write(users, id, u))
    ensures Write(users, id, u).Keys == users.Keys
  {
    if id in users {
      var written := users[id := u];
      assert RowOkAt(users, id) && LinkOkAt(users, id);
      forall k ensures RowOkAt(written, k) {
        assert RowOkAt(users, k);
      }
      forall k ensures LinkOkAt(written, k) {
        assert LinkOkAt(users, k);
      }
      forall a, b ensures DistinctAt(written, a, b) {
        assert DistinctAt(users, a, b);
      }
    }
  }

  /**
   * Adding a row under a new id keeps the table well formed when the row keeps the bounds,
   * names no referrer, and shares no username, email or code with an existing row.
   */
  lemma InsertKeepsWellFormed(users: map<UserId, User>, id: UserId, u: User)
    requires WellFormed(users) && id !in users
    requires RowOk(u) && u.referredByUserId.None?
    requires forall k :: k in users ==>
      users[k].username != u.username && users[k].email != u.email && users[k].referralCode != u.referralCode
    ensures WellFormed(users[id := u])
  {
    var added := users[id := u];
    forall k ensures RowOkAt(added, k) {
      assert RowOkAt(users, k);
    }
    forall k ensures LinkOkAt(added, k) {
      assert LinkOkAt(users, k);
    }
    forall a, b ensures DistinctAt(added, a, b) {
      assert DistinctAt(users, a, b);
    }
  }

  /** The reset is due when no date is stored or the stored date sorts before today. */
  predicate NeedsReset(u: User, today: string): (r: bool)
    ensures u.lastActivityDate.None? ==> r
    ensures u.lastActivityDate == Some(today) ==> !r
    ensures r ==> u.lastActivityDate != Some(today)
  {
    LexLessIrreflexive(today);
    u.lastActivityDate.None? || LexLess(u.lastActivityDate.value, today)
  }

  /** The reset's UPDATE: five columns rewritten, all others kept. */
  ghost function ResetDaily(u: User, today: string): (r: User)
    ensures r.spinsLeftToday == MAX_FREE_SPINS_PER_DAY
    ensures r.adsWatchedToday == 0 && r.spinAdsWatchedToday == 0
    ensures r.dailyTasksStatus.Keys == TaskIds
    ensures forall id :: !Completed(r.dailyTasksStatus, id)
    ensures r.lastActivityDate == Some(today)
    ensures SameIdentity(u, r) && r.passwordHash == u.passwordHash
    ensures r.points == u.points && r.used4600Withdrawal == u.used4600Withdrawal
    ensures r.referredByUserId == u.referredByUserId
    ensures r.totalReferralsMade == u.totalReferralsMade
    ensures RowOk(u) ==> RowOk(r)
  {
    u.(spinsLeftToday := MAX_FREE_SPINS_PER_DAY,
       adsWatchedToday := 0,
       spinAdsWatchedToday := 0,
       dailyTasksStatus := FreshTaskStatus,
       lastActivityDate := Some(today))
  }

  /** The table after `checkAndResetDailyLimits(id)` on the day whose text is `today`. */
  ghost function AfterReset(users: map<UserId, User>, id: UserId, today: string): (r: map<UserId, User>)
    ensures r.Keys == users.Keys
    ensures forall k :: k in users && k != id ==> r[k] == users[k]
    ensures id in users ==> !NeedsReset(r[id], today)
    ensures id in users && !NeedsReset(users[id], today) ==> r == users
    ensures id in users && NeedsReset(users[id], today) ==> r[id] == ResetDaily(users[id], today)
  {
    if id in users && NeedsReset(users[id], today) then users[id := ResetDaily(users[id], today)]
    else users
  }

  /** A second reset check on the same day finds the row current and changes nothing. */
  lemma ResetIdempotent(users: map<UserId, User>, id: UserId, today: string)
    ensures AfterReset(AfterReset(users, id, today), id, today) == AfterReset(users, id, today)
    ensures id in users ==> !NeedsReset(AfterReset(users, id, today)[id], today)
  {
    LexLessIrreflexive(today);
  }

  /** With a stored date, the reset is due exactly when that date is an earlier day than today. */
  lemma ResetIffEarlierDay(u: User, last: Date, today: Date)
    requires ValidDate(last) && ValidDate(today)
    requires u.lastActivityDate == Some(FormatDate(last))
    ensures NeedsReset(u, FormatDate(today)) <==> Before(last, today)
  {
    FormatDateOrder(last, today);
  }

  /** A row reset today is due again on any later day, and on no day up to today. */
  lemma ResetDueOnLaterDay(u: User, today: Date, day: Date)
    requires ValidDate(today) && ValidDate(day)
    ensures NeedsReset(ResetDaily(u, FormatDate(today)), FormatDate(day)) <==> Before(today, day)
  {
    ResetIffEarlierDay(ResetDaily(u, FormatDate(today)), today, day);
  }

  /** The reset keeps the table well formed and touches only the row it resets. */
  lemma AfterResetKeepsWellFormed(users: map<UserId, User>, id: UserId, today: string)
    requires WellFormed(users)
    ensures WellFormed(AfterReset(users, id, today))
    ensures AfterReset(users, id, today).Keys == users.Keys
  {
    if id in users && NeedsReset(users[id], today) {
      WriteKeepsWellFormed(users, id, ResetDaily(users[id], today));
    }
  }
}
