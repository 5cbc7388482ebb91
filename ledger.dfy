/**
 * The persisted state the handlers of api.php work on: the `users` table, the
 * `withdrawals` table and the auto-increment counter of `user_id`, with one method per
 * action. Every handler reads a row, checks its rule and either writes the rule's update
 * or leaves the tables as they were; the daily reset runs first where the source runs it.
 */
module Ledgers {
  import opened Wrappers
  import opened Php
  import opened UtcDate
  import opened Config
  import opened Users
  import opened Outcomes
  import opened Actions
  import opened Registration

  /** A row of `withdrawals`; this core only ever creates it with status "pending". */
  datatype Withdrawal = Withdrawal(
    userId: UserId,
    username: string,
    email: string,
    pointsWithdrawn: int,
    withdrawalMethod: string,
    walletAddress: string,
    status: string)

  ghost predicate WithdrawalOk(w: Withdrawal, users: map<UserId, User>)
  {
    && w.userId in users
    && TierOf(w.pointsWithdrawn).Some?
    && !Blank(w.withdrawalMethod) && !Blank(w.walletAddress)
    && w.status == "pending"
  }

  /** Request `i` of `ws` is one for the one-time low tier made by `id`. */
  ghost predicate LowTierRequestAt(ws: seq<Withdrawal>, i: int, id: UserId)
  {
    0 <= i < |ws| && ws[i].userId == id && ws[i].pointsWithdrawn == 4600
  }

  /** The user has a request for the one-time low tier among `ws`. */
  ghost predicate HasLowTierRequest(ws: seq<Withdrawal>, id: UserId)
  {
    exists i :: LowTierRequestAt(ws, i, id)
  }

  /** `used_4600_withdrawal` of the row at `id`, if any, is set exactly when it has a 4600 request. */
  ghost predicate LowTierFlagAt(users: map<UserId, User>, ws: seq<Withdrawal>, id: UserId)
  {
    id in users ==> (users[id].used4600Withdrawal <==> HasLowTierRequest(ws, id))
  }

  /** Two different 4600 requests come from different users. */
  ghost predicate LowTierOnceAt(ws: seq<Withdrawal>, i: int, j: int)
  {
    0 <= i < j < |ws| && ws[i].pointsWithdrawn == 4600 && ws[j].pointsWithdrawn == 4600 ==>
      ws[i].userId != ws[j].userId
  }

  /** The row at `id`, if any, has an id the auto-increment has already handed out. */
  ghost predicate IdIssuedAt(users: map<UserId, User>, id: UserId, nextId: UserId)
  {
    id in users ==> 1 <= id < nextId
  }

  /** Request `i`, if there is one, is a well-formed pending request of an existing user. */
  ghost predicate RequestOkAt(ws: seq<Withdrawal>, i: int, users: map<UserId, User>)
  {
    0 <= i < |ws| ==> WithdrawalOk(ws[i], users)
  }

  /**
   * The two tables together: the users table well formed, every id already issued, every
   * request pending for an existing user, `used_4600_withdrawal` set exactly for the users
   * with a 4600 request, and no user with two of them.
   */
  ghost predicate LedgerOk(users: map<UserId, User>, ws: seq<Withdrawal>, nextId: UserId, d: ColumnDefaults)
  {
    && WellFormed(users)
    && DefaultsOk(d)
    && 1 <= nextId
    && (forall id :: IdIssuedAt(users, id, nextId))
    && (forall i :: RequestOkAt(ws, i, users))
    && (forall id :: LowTierFlagAt(users, ws, id))
    && (forall i, j :: LowTierOnceAt(ws, i, j))
  }

  /** Rewriting one row as `WriteKeepsWellFormed` allows, flag untouched, keeps the ledger consistent. */
  lemma WriteKeepsLedgerOk(users: map<UserId, User>, ws: seq<Withdrawal>, nextId: UserId, d: ColumnDefaults,
                           id: UserId, u: User)
    requires LedgerOk(users, ws, nextId, d)
    requires id in users ==> SameIdentity(users[id], u) && (RowOk(users[id]) ==> RowOk(u))
    requires id in users && u.referredByUserId != users[id].referredByUserId ==>
      u.referredByUserId.Some? && u.referredByUserId.value != id && u.referredByUserId.value in users
    requires id in users ==> u.used4600Withdrawal == users[id].used4600Withdrawal
    ensures LedgerOk(Write(users, id, u), ws, nextId, d)
  {
    WriteKeepsWellFormed(users, id, u);
    var written := Write(users, id, u);
    forall k ensures IdIssuedAt(written, k, nextId) {
      assert IdIssuedAt(users, k, nextId);
    }
    forall i ensures RequestOkAt(ws, i, written) {
      assert RequestOkAt(ws, i, users);
    }
    forall k ensures LowTierFlagAt(written, ws, k) {
      assert LowTierFlagAt(users, ws, k);
    }
  }

  /** The daily reset keeps the ledger consistent. */
  lemma ResetKeepsLedgerOk(users: map<UserId, User>, ws: seq<Withdrawal>, nextId: UserId, d: ColumnDefaults,
                           id: UserId, today: string)
    requires LedgerOk(users, ws, nextId, d)
    ensures LedgerOk(AfterReset(users, id, today), ws, nextId, d)
  {
    if id in users && NeedsReset(users[id], today) {
      WriteKeepsLedgerOk(users, ws, nextId, d, id, ResetDaily(users[id], today));
    }
  }

  /**
   * Registering a row under the next id keeps the ledger consistent when the row keeps the
   * bounds, has no referrer and no low-tier flag, and clashes with no existing identity.
   */
  lemma InsertKeepsLedgerOk(users: map<UserId, User>, ws: seq<Withdrawal>, nextId: UserId, d: ColumnDefaults,
                            u: User)
    requires LedgerOk(users, ws, nextId, d)
    requires RowOk(u) && u.referredByUserId.None? && !u.used4600Withdrawal
    requires forall k :: k in users ==>
      users[k].username != u.username && users[k].email != u.email && users[k].referralCode != u.referralCode
    ensures nextId !in users
    ensures LedgerOk(users[nextId := u], ws, nextId + 1, d)
  {
    assert IdIssuedAt(users, nextId, nextId);
    InsertKeepsWellFormed(users, nextId, u);
    var added := users[nextId := u];
    var next := nextId + 1;
    forall k ensures IdIssuedAt(added, k, next) {
      assert IdIssuedAt(users, k, nextId);
    }
    forall i ensures RequestOkAt(ws, i, added) {
      assert RequestOkAt(ws, i, users);
    }
    forall i ensures !LowTierRequestAt(ws, i, nextId) {
      assert RequestOkAt(ws, i, users);
    }
    forall k ensures LowTierFlagAt(added, ws, k) {
      assert LowTierFlagAt(users, ws, k);
    }
  }

  /** Both credits of a referral between two distinct users keep the ledger consistent. */
  lemma CreditedKeepsLedgerOk(users: map<UserId, User>, ws: seq<Withdrawal>, nextId: UserId, d: ColumnDefaults,
                              referred: UserId, referrer: UserId)
    requires LedgerOk(users, ws, nextId, d) && referrer in users && referrer != referred
    requires Read(users, referred).referredByUserId.None?
    ensures LedgerOk(Credited(users, referred, referrer), ws, nextId, d)
    ensures Credited(users, referred, referrer).Keys == users.Keys
  {
    WriteKeepsLedgerOk(users, ws, nextId, d, referred, CreditReferred(Read(users, referred), referrer));
    var afterReferred := Write(users, referred, CreditReferred(Read(users, referred), referrer));
    assert afterReferred[referrer] == users[referrer];
    WriteKeepsLedgerOk(afterReferred, ws, nextId, d, referrer, CreditReferrer(users[referrer]));
  }

  /** A committed withdrawal that passed the checks keeps the ledger consistent. */
  lemma WithdrawalKeepsLedgerOk(users: map<UserId, User>, ws: seq<Withdrawal>, nextId: UserId,
                                d: ColumnDefaults, uid: UserId, amount: int, payMethod: string, details: string)
    requires LedgerOk(users, ws, nextId, d) && uid in users
    requires WithdrawalCheck(amount, payMethod, details, users[uid].points, users[uid].used4600Withdrawal).None?
    ensures var u := users[uid];
      LedgerOk(users[uid := Withdrawn(u, amount)],
               ws + [Withdrawal(uid, u.username, u.email, amount, payMethod, details, "pending")], nextId, d)
  {
    var u := users[uid];
    var users' := users[uid := Withdrawn(u, amount)];
    var w := Withdrawal(uid, u.username, u.email, amount, payMethod, details, "pending");
    var ws' := ws + [w];
    assert RowOkAt(users, uid);
    WriteKeepsWellFormed(users, uid, Withdrawn(u, amount));
    forall k ensures IdIssuedAt(users', k, nextId) {
      assert IdIssuedAt(users, k, nextId);
    }
    forall i ensures RequestOkAt(ws', i, users') {
      if 0 <= i < |ws| {
        assert RequestOkAt(ws, i, users);
        assert ws'[i] == ws[i];
      }
    }
    forall k ensures LowTierFlagAt(users', ws', k) {
      assert LowTierFlagAt(users, ws, k);
      if HasLowTierRequest(ws, k) {
        var i :| LowTierRequestAt(ws, i, k);
        assert LowTierRequestAt(ws', i, k);
      }
      if HasLowTierRequest(ws', k) {
        var i :| LowTierRequestAt(ws', i, k);
        if i < |ws| {
          assert LowTierRequestAt(ws, i, k);
        }
      }
      if k == uid && amount == 4600 {
        assert LowTierRequestAt(ws', |ws|, k);
      }
    }
    assert LowTierFlagAt(users, ws, uid);
    forall i, j ensures LowTierOnceAt(ws', i, j) {
      assert LowTierOnceAt(ws, i, j);
      if 0 <= i < j && j == |ws| && amount == 4600 {
        assert ws'[i] == ws[i];
        assert !LowTierRequestAt(ws, i, uid);
      }
    }
  }

  class Ledger {
    /** The `users` table, keyed by `user_id`. */
    var users: map<UserId, User>
    /** The `withdrawals` table, in insertion order. */
    var withdrawals: seq<Withdrawal>
    /** The next `user_id` the table's auto-increment will hand out. */
    var nextId: UserId
    /** The table's defaults for the columns the registration INSERT leaves out. */
    const defaults: ColumnDefaults

    ghost predicate Valid()
      reads this
    {
      LedgerOk(users, withdrawals, nextId, defaults)
    }

    constructor (defaults: ColumnDefaults)
      requires DefaultsOk(defaults)
      ensures Valid()
      ensures users == map[] && withdrawals == [] && nextId == 1 && this.defaults == defaults
    {
      users := map[];
      withdrawals := [];
      nextId := 1;
      this.defaults := defaults;
    }

    /**
     * checkAndResetDailyLimits: on the first call of a new UTC day (or with no date
     * stored) rewrite the five daily columns; answer whether it did. An unknown id
     * answers false and changes nothing.
     */
    method CheckAndResetDailyLimits(userId: UserId, today: Date) returns (wasReset: bool)
      requires Valid() && ValidDate(today)
      modifies this`users
      ensures Valid()
      ensures wasReset <==> userId in old(users) && NeedsReset(old(users)[userId], FormatDate(today))
      ensures users == AfterReset(old(users), userId, FormatDate(today))
      ensures userId in old(users) ==> !NeedsReset(users[userId], FormatDate(today))
      ensures userId !in old(users) ==> users == old(users)
    {
      var todayUtc := FormatDate(today);
      ResetIdempotent(users, userId, todayUtc);
      if userId !in users {
        return false;
      }
      var activity := users[userId];
      if activity.lastActivityDate.None? || LexLess(activity.lastActivityDate.value, todayUtc) {
        var initialTasksStatus := InitialTaskStatus();
        users := users[userId := activity.(spinsLeftToday := MAX_FREE_SPINS_PER_DAY,
                                           adsWatchedToday := 0,
                                           spinAdsWatchedToday := 0,
                                           dailyTasksStatus := initialTasksStatus,
                                           lastActivityDate := Some(todayUtc))];
        ResetKeepsLedgerOk(old(users), withdrawals, nextId, defaults, userId, todayUtc);
        return true;
      }
      return false;
    }

    /** getCurrentUserDataFromApi: the reset, then the row as it now stands. */
    method GetCurrentUserData(userId: UserId, today: Date) returns (userData: User)
      requires Valid() && ValidDate(today)
      modifies this`users
      ensures Valid()
      ensures users == AfterReset(old(users), userId, FormatDate(today))
      ensures userData == Read(users, userId)
      ensures userId in users ==> !NeedsReset(userData, FormatDate(today))
    {
      var wasReset := CheckAndResetDailyLimits(userId, today);
      userData := Read(users, userId);
    }

    /**
     * The handlers' opening: the reset, then `getCurrentUserDataFromApi`, which runs the
     * reset a second time before reading the row; the second finds nothing to do.
     */
    method ResetAndRead(userId: UserId, today: Date) returns (userData: User)
      requires Valid() && ValidDate(today)
      modifies this`users
      ensures Valid()
      ensures users == AfterReset(old(users), userId, FormatDate(today))
      ensures userData == Read(users, userId)
      ensures userId in users ==> !NeedsReset(userData, FormatDate(today))
    {
      var wasReset := CheckAndResetDailyLimits(userId, today);
      userData := GetCurrentUserData(userId, today);
      ResetIdempotent(old(users), userId, FormatDate(today));
    }

    /**
     * register: the validation chain, the uniqueness check (extended to the derived
     * referral code), then the INSERT with a fresh id, an all-false task map and today's date.
     */
    method Register(username: string, email: string, password: string, confirm: string,
                    emailValid: bool, passwordHash: string, today: Date)
      returns (r: Status, newId: Option<UserId>)
      requires Valid() && ValidDate(today)
      modifies this`users, this`nextId
      ensures Valid()
      ensures var invalid := ValidateRegistration(username, email, password, confirm, emailValid);
        invalid.Some? ==> r == Fail(invalid.value)
      ensures ValidateRegistration(username, email, password, confirm, emailValid).None? ==>
        var conflict := RegistrationConflict(old(users), username, email);
        conflict.Some? ==> r == Fail(conflict.value)
      ensures r != Ok ==> newId.None? && users == old(users) && nextId == old(nextId)
      ensures r == Ok <==>
        ValidateRegistration(username, email, password, confirm, emailValid).None?
        && RegistrationConflict(old(users), username, email).None?
      ensures r == Ok ==>
        && newId == Some(old(nextId)) && old(nextId) !in old(users)
        && users == old(users)[old(nextId) :=
             NewRow(defaults, username, email, passwordHash, FreshTaskStatus, FormatDate(today))]
        && nextId == old(nextId) + 1
    {
      var invalid := ValidateRegistration(username, email, password, confirm, emailValid);
      if invalid.Some? {
        return Fail(invalid.value), None;
      }
      var conflict := RegistrationConflict(users, username, email);
      if conflict.Some? {
        return Fail(conflict.value), None;
      }
      var initialTasksStatus := InitialTaskStatus();
      var row := NewRow(defaults, username, email, passwordHash, initialTasksStatus, FormatDate(today));
      InsertKeepsLedgerOk(users, withdrawals, nextId, defaults, row);
      users := users[nextId := row];
      newId := Some(nextId);
      nextId := nextId + 1;
      r := Ok;
    }

    /** getSpinsFromAd: below the spin-ad cap, two more spins; no points. */
    method GetSpinsFromAd(session: Option<UserId>, today: Date) returns (r: Status)
      requires Valid() && ValidDate(today)
      modifies this`users
      ensures Valid()
      ensures session.None? ==> r == Fail(AuthenticationRequired) && users == old(users)
      ensures session.Some? ==>
        var pre := AfterReset(old(users), session.value, FormatDate(today));
        var step := SpinAdStep(Read(pre, session.value));
        r == step.status && users == Write(pre, session.value, step.row)
    {
      if session.None? {
        return Fail(AuthenticationRequired);
      }
      var userData := ResetAndRead(session.value, today);
      r := GrantSpinsFromAd(session.value, userData);
    }

    /** The rest of getSpinsFromAd, on the row just read: the cap check and the UPDATE. */
    method GrantSpinsFromAd(userId: UserId, userData: User) returns (r: Status)
      requires Valid() && userData == Read(users, userId)
      modifies this`users
      ensures Valid()
      ensures r == SpinAdStep(userData).status
      ensures users == Write(old(users), userId, SpinAdStep(userData).row)
    {
      if userData.spinAdsWatchedToday < MAX_SPIN_ADS_PER_DAY {
        var newSpinsCount := userData.spinsLeftToday + SPINS_GAINED_PER_AD;
        if userId in users {
          users := users[userId := users[userId].(spinsLeftToday := newSpinsCount,
                                                  spinAdsWatchedToday := users[userId].spinAdsWatchedToday + 1)];
        }
        r := Ok;
      } else {
        r := Fail(SpinAdLimitReached);
      }
      WriteKeepsLedgerOk(old(users), withdrawals, nextId, defaults, userId, SpinAdStep(userData).row);
    }

    /**
     * spin: with a spin left, one spin is traded for a prize of 2 to 15 points; the three
     * `mt_rand` draws are inputs.
     */
    method Spin(session: Option<UserId>, today: Date, roll: int, low: int, high: int)
      returns (r: Status, pointsEarned: int)
      requires Valid() && ValidDate(today)
      requires 1 <= roll <= 100 && 2 <= low <= 10 && 11 <= high <= 15
      modifies this`users
      ensures Valid()
      ensures session.None? ==> r == Fail(AuthenticationRequired) && users == old(users)
      ensures session.Some? ==>
        var pre := AfterReset(old(users), session.value, FormatDate(today));
        var step := SpinStep(Read(pre, session.value), SpinReward(roll, low, high));
        r == step.status && users == Write(pre, session.value, step.row)
      ensures r == Ok ==> pointsEarned == SpinReward(roll, low, high) && 2 <= pointsEarned <= 15
    {
      if session.None? {
        return Fail(AuthenticationRequired), 0;
      }
      var userData := ResetAndRead(session.value, today);
      r, pointsEarned := SpendSpin(session.value, userData, roll, low, high);
    }

    /** The rest of spin, on the row just read: the spin check, the draw and the UPDATE. */
    method SpendSpin(userId: UserId, userData: User, roll: int, low: int, high: int)
      returns (r: Status, pointsEarned: int)
      requires Valid() && userData == Read(users, userId)
      requires 1 <= roll <= 100 && 2 <= low <= 10 && 11 <= high <= 15
      modifies this`users
      ensures Valid()
      ensures r == SpinStep(userData, SpinReward(roll, low, high)).status
      ensures users == Write(old(users), userId, SpinStep(userData, SpinReward(roll, low, high)).row)
      ensures pointsEarned == if r == Ok then SpinReward(roll, low, high) else 0
    {
      if userData.spinsLeftToday > 0 {
        pointsEarned := SpinReward(roll, low, high);
        if userId in users {
          users := users[userId := users[userId].(points := users[userId].points + pointsEarned,
                                                  spinsLeftToday := users[userId].spinsLeftToday - 1)];
        }
        r := Ok;
      } else {
        r, pointsEarned := Fail(NoSpinsLeft), 0;
      }
      WriteKeepsLedgerOk(old(users), withdrawals, nextId, defaults, userId,
                         SpinStep(userData, SpinReward(roll, low, high)).row);
    }

    /** adWatched: below the ad cap, the per-ad points. */
    method AdWatched(session: Option<UserId>, today: Date) returns (r: Status)
      requires Valid() && ValidDate(today)
      modifies this`users
      ensures Valid()
      ensures session.None? ==> r == Fail(AuthenticationRequired) && users == old(users)
      ensures session.Some? ==>
        var pre := AfterReset(old(users), session.value, FormatDate(today));
        var step := AdStep(Read(pre, session.value));
        r == step.status && users == Write(pre, session.value, step.row)
    {
      if session.None? {
        return Fail(AuthenticationRequired);
      }
      var userData := ResetAndRead(session.value, today);
      r := CreditAdView(session.value, userData);
    }

    /** The rest of adWatched, on the row just read: the cap check and the UPDATE. */
    method CreditAdView(userId: UserId, userData: User) returns (r: Status)
      requires Valid() && userData == Read(users, userId)
      modifies this`users
      ensures Valid()
      ensures r == AdStep(userData).status
      ensures users == Write(old(users), userId, AdStep(userData).row)
    {
      if userData.adsWatchedToday < MAX_ADS_PER_DAY {
        if userId in users {
          users := users[userId := users[userId].(points := users[userId].points + POINTS_PER_AD,
                                                  adsWatchedToday := users[userId].adsWatchedToday + 1)];
        }
        r := Ok;
      } else {
        r := Fail(AdLimitReached);
      }
      WriteKeepsLedgerOk(old(users), withdrawals, nextId, defaults, userId, AdStep(userData).row);
    }

    /** get_tasks: the catalog in order, each with the caller's flag for today. */
    method GetTasks(session: Option<UserId>, today: Date) returns (r: Status, tasks: seq<TaskView>)
      requires Valid() && ValidDate(today)
      modifies this`users
      ensures Valid()
      ensures session.None? ==> r == Fail(AuthenticationRequired) && users == old(users) && tasks == []
      ensures session.Some? ==>
        && r == Ok
        && users == AfterReset(old(users), session.value, FormatDate(today))
        && |tasks| == |Catalog|
        && forall i :: 0 <= i < |Catalog| ==>
             tasks[i].task == Catalog[i]
             && (tasks[i].completed <==> Completed(Read(users, session.value).dailyTasksStatus, Catalog[i].id))
    {
      if session.None? {
        return Fail(AuthenticationRequired), [];
      }
      var userData := ResetAndRead(session.value, today);
      tasks := TasksWithStatus(userData.dailyTasksStatus);
      r := Ok;
    }

    /**
     * completeTask: an id outside the catalog is refused before anything else (no reset);
     * otherwise, after the reset, a task not yet done today is marked done and paid.
     */
    method CompleteTask(session: Option<UserId>, taskId: Option<int>, today: Date)
      returns (r: Status, tasks: seq<TaskView>)
      requires Valid() && ValidDate(today)
      modifies this`users
      ensures Valid()
      ensures session.None? ==> r == Fail(AuthenticationRequired) && users == old(users)
      ensures session.Some? && (taskId.None? || FindTask(taskId.value).None?) ==>
        r == Fail(InvalidTaskId) && users == old(users)
      ensures session.Some? && taskId.Some? && FindTask(taskId.value).Some? ==>
        var pre := AfterReset(old(users), session.value, FormatDate(today));
        var step := CompleteTaskStep(Read(pre, session.value), FindTask(taskId.value).value);
        r == step.status && users == Write(pre, session.value, step.row)
      ensures r == Ok ==>
        && |tasks| == |Catalog|
        && forall i :: 0 <= i < |Catalog| ==>
             tasks[i].task == Catalog[i]
             && (tasks[i].completed <==> Completed(Read(users, session.value).dailyTasksStatus, Catalog[i].id))
    {
      if session.None? {
        return Fail(AuthenticationRequired), [];
      }
      var userId := session.value;
      var task := if taskId.Some? then FindTask(taskId.value) else None;
      if task.None? {
        return Fail(InvalidTaskId), [];
      }
      var userData := ResetAndRead(userId, today);
      r, tasks := MarkTaskDone(userId, userData, task.value, today);
    }

    /**
     * The rest of completeTask, on the row just read (already reset for today): the
     * already-done check, the UPDATE, and the task list from a fresh read.
     */
    method MarkTaskDone(userId: UserId, userData: User, task: Task, today: Date)
      returns (r: Status, tasks: seq<TaskView>)
      requires Valid() && ValidDate(today) && task in Catalog && userData == Read(users, userId)
      requires userId in users ==> !NeedsReset(userData, FormatDate(today))
      modifies this`users
      ensures Valid()
      ensures r == CompleteTaskStep(userData, task).status
      ensures users == Write(old(users), userId, CompleteTaskStep(userData, task).row)
      ensures r == Ok ==>
        && |tasks| == |Catalog|
        && forall i :: 0 <= i < |Catalog| ==>
             tasks[i].task == Catalog[i]
             && (tasks[i].completed <==> Completed(Read(users, userId).dailyTasksStatus, Catalog[i].id))
    {
      var currentTasksStatus := userData.dailyTasksStatus;
      if Completed(currentTasksStatus, task.id) {
        return Fail(TaskAlreadyCompleted), [];
      }
      currentTasksStatus := currentTasksStatus[task.id := true];
      if userId in users {
        users := users[userId := users[userId].(points := users[userId].points + task.points,
                                                dailyTasksStatus := currentTasksStatus)];
      }
      WriteKeepsLedgerOk(old(users), withdrawals, nextId, defaults, userId, CompleteTaskStep(userData, task).row);
      ghost var written := users;
      var updatedUserData := GetCurrentUserData(userId, today);
      assert users == written;
      tasks := TasksWithStatus(updatedUserData.dailyTasksStatus);
      r := Ok;
    }

    /**
     * `SELECT user_id FROM users WHERE referral_code = :code AND user_id != :current_user_id`:
     * the referrer, if any other user holds the code.
     */
    method FindReferrer(code: string, currentUserId: UserId) returns (found: Option<UserId>)
      ensures found.Some? ==>
        found.value in users && found.value != currentUserId && users[found.value].referralCode == code
      ensures found.None? <==>
        forall id :: id in users && id != currentUserId ==> users[id].referralCode != code
    {
      var candidates := users.Keys;
      while candidates != {}
        invariant candidates <= users.Keys
        invariant forall id :: id in users && id !in candidates && id != currentUserId ==>
          users[id].referralCode != code
        decreases candidates
      {
        var id :| id in candidates;
        if id != currentUserId && users[id].referralCode == code {
          return Some(id);
        }
        candidates := candidates - {id};
      }
      return None;
    }

    /**
     * submitReferralCode: a non-empty code, a user not yet referred, and another user
     * holding the code; then, in one transaction, +5 and the link for the user and +20 and
     * one more referral for the referrer. Refusals roll back with nothing written. The
     * success response re-reads the user, which runs the daily reset.
     */
    method SubmitReferralCode(session: Option<UserId>, code: string, today: Date)
      returns (r: Status, referrer: Option<UserId>)
      requires Valid() && ValidDate(today)
      modifies this`users
      ensures Valid()
      ensures r == Ok <==> referrer.Some?
      ensures session.None? ==> r == Fail(AuthenticationRequired) && users == old(users)
      ensures session.Some? && Blank(code) ==> r == Fail(EmptyReferralCode) && users == old(users)
      ensures session.Some? && !Blank(code) && Read(old(users), session.value).referredByUserId.Some? ==>
        r == Fail(ReferralAlreadySubmitted) && users == old(users)
      ensures session.Some? && !Blank(code) && Read(old(users), session.value).referredByUserId.None? ==>
        var uid := session.value;
        && (referrer.None? <==> forall id :: id in old(users) && id != uid ==> old(users)[id].referralCode != code)
        && (referrer.None? ==> r == Fail(InvalidReferralCode) && users == old(users))
        && (referrer.Some? ==>
              && referrer.value in old(users) && referrer.value != uid
              && old(users)[referrer.value].referralCode == code
              && (forall id :: id in old(users) && id != uid && old(users)[id].referralCode == code ==>
                    id == referrer.value)
              && users == AfterReset(Credited(old(users), uid, referrer.value), uid, FormatDate(today)))
    {
      if session.None? {
        return Fail(AuthenticationRequired), None;
      }
      var userId := session.value;
      if Blank(code) {
        return Fail(EmptyReferralCode), None;
      }
      var currentUser := Read(users, userId);
      if currentUser.referredByUserId.Some? {
        return Fail(ReferralAlreadySubmitted), None;
      }
      referrer := FindReferrer(code, userId);
      if referrer.None? {
        return Fail(InvalidReferralCode), None;
      }
      var referrerId := referrer.value;
      forall id | id in users && id != userId && users[id].referralCode == code
        ensures id == referrerId
      {
        assert DistinctAt(users, id, referrerId);
      }
      CreditReferral(userId, referrerId);
      r := Ok;
      var userData := GetCurrentUserData(userId, today);
    }

    /** The transaction of submitReferralCode: both UPDATEs, committed together. */
    method CreditReferral(userId: UserId, referrerId: UserId)
      requires Valid() && referrerId in users && referrerId != userId
      requires Read(users, userId).referredByUserId.None?
      modifies this`users
      ensures Valid()
      ensures users == Credited(old(users), userId, referrerId)
    {
      if userId in users {
        users := users[userId := users[userId].(points := users[userId].points + POINTS_PER_REFERRAL_FOR_REFERRED,
                                                referredByUserId := Some(referrerId))];
      }
      users := users[referrerId := users[referrerId].(points := users[referrerId].points + POINTS_PER_REFERRAL_FOR_REFERRER,
                                                      totalReferralsMade := users[referrerId].totalReferralsMade + 1)];
      CreditedKeepsLedgerOk(old(users), withdrawals, nextId, defaults, userId, referrerId);
    }

    /**
     * The guarded decrement `UPDATE ... SET points = points - :p WHERE ... AND points >= :p`:
     * one row changed when the balance covers the (positive, tier) amount, none otherwise.
     */
    method DeductIfCovered(userId: UserId, amount: int) returns (rowCount: nat)
      requires Valid() && amount > 0
      modifies this`users
      ensures Valid()
      ensures rowCount == (if userId in old(users) && old(users)[userId].points >= amount then 1 else 0)
      ensures rowCount == 1 ==>
        users == old(users)[userId := old(users)[userId].(points := old(users)[userId].points - amount)]
      ensures rowCount == 0 ==> users == old(users)
      ensures userId in users ==> users[userId].points >= 0
    {
      assert RowOkAt(users, userId);
      if userId in users && users[userId].points >= amount {
        var row := users[userId];
        users := users[userId := row.(points := row.points - amount)];
        WriteKeepsLedgerOk(old(users), withdrawals, nextId, defaults, userId, users[userId]);
        return 1;
      }
      return 0;
    }

    /**
     * requestWithdrawal: after the reset, the four checks in order; then one transaction
     * that deducts the amount only if the balance still covers it, marks the low tier used,
     * and appends one pending request. A failed deduction rolls back everything.
     */
    method RequestWithdrawal(session: Option<UserId>, amount: int, payMethod: string, details: string,
                             today: Date) returns (r: Status)
      requires Valid() && ValidDate(today)
      modifies this`users, this`withdrawals
      ensures Valid()
      ensures session.None? ==>
        r == Fail(AuthenticationRequired) && users == old(users) && withdrawals == old(withdrawals)
      ensures session.Some? ==>
        var uid := session.value;
        var pre := AfterReset(old(users), uid, FormatDate(today));
        var u := Read(pre, uid);
        var check := WithdrawalCheck(amount, payMethod, details, u.points, u.used4600Withdrawal);
        && (check.Some? ==> r == Fail(check.value) && users == pre && withdrawals == old(withdrawals))
        && (check.None? ==>
              && r == Ok && uid in pre
              && users == pre[uid := Withdrawn(u, amount)]
              && withdrawals == old(withdrawals) + [Withdrawal(uid, u.username, u.email, amount, payMethod, details, "pending")])
    {
      if session.None? {
        return Fail(AuthenticationRequired);
      }
      var userId := session.value;
      var userData := ResetAndRead(userId, today);
      var refusal := WithdrawalCheck(amount, payMethod, details, userData.points, userData.used4600Withdrawal);
      if refusal.Some? {
        return Fail(refusal.value);
      }
      CommitWithdrawal(userId, userData, amount, payMethod, details);
      r := Ok;
      ghost var committed := users;
      var updatedUserData := GetCurrentUserData(userId, today);
      assert users == committed;
    }

    /**
     * The transaction of requestWithdrawal, after the checks passed on the row just read:
     * the guarded deduction, the low-tier flag, and the pending request.
     */
    method CommitWithdrawal(userId: UserId, userData: User, amount: int, payMethod: string, details: string)
      requires Valid() && userData == Read(users, userId)
      requires WithdrawalCheck(amount, payMethod, details, userData.points, userData.used4600Withdrawal).None?
      modifies this`users, this`withdrawals
      ensures Valid()
      ensures userId in old(users) && users == old(users)[userId := Withdrawn(userData, amount)]
      ensures withdrawals ==
        old(withdrawals) + [Withdrawal(userId, userData.username, userData.email, amount, payMethod, details, "pending")]
    {
      var rowCount := DeductIfCovered(userId, amount);
      // The checks saw a balance covering the amount, so with no other writer in between the
      // guarded UPDATE matches its row and the rollback branch after it is never taken.
      assert rowCount == 1;
      if TierOf(amount) == Some(true) {
        users := users[userId := users[userId].(used4600Withdrawal := true)];
      }
      assert users == old(users)[userId := Withdrawn(userData, amount)];
      withdrawals := withdrawals + [Withdrawal(userId, userData.username, userData.email, amount,
                                               payMethod, details, "pending")];
      WithdrawalKeepsLedgerOk(old(users), old(withdrawals), nextId, defaults, userId, amount, payMethod, details);
    }
  }
}
