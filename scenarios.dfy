/**
 * Sequences of handler calls against one ledger, with the outcome the rules promise for
 * the whole sequence: a referral counts once, the low tier pays out once, a balance is
 * not spent twice, the free spins of a new day run out after twenty, and a task done
 * today is refused again today and open again on a later day.
 */
module Scenarios {
  import opened Wrappers
  import opened Php
  import opened UtcDate
  import opened Config
  import opened Users
  import opened Outcomes
  import opened Actions
  import opened Ledgers

  /** After an accepted referral code, any further submission by the same user is refused. */
  method ReferralOnlyOnce(l: Ledger, uid: UserId, code: string, otherCode: string, today: Date)
    returns (first: Status, second: Status)
    requires l.Valid() && ValidDate(today) && uid in l.users
    modifies l`users
    ensures l.Valid()
    ensures first == Ok ==>
      second == if Blank(otherCode) then Fail(EmptyReferralCode) else Fail(ReferralAlreadySubmitted)
  {
    var referrer;
    first, referrer := l.SubmitReferralCode(Some(uid), code, today);
    second, referrer := l.SubmitReferralCode(Some(uid), otherCode, today);
  }

  /** Two requests for the one-time 4600-point tier never both go through. */
  method LowTierPaidOnce(l: Ledger, uid: UserId, payMethod: string, details: string, today: Date)
    returns (first: Status, second: Status)
    requires l.Valid() && ValidDate(today)
    modifies l`users, l`withdrawals
    ensures l.Valid()
    ensures first == Ok ==> second == Fail(NotEnoughPoints) || second == Fail(LowTierAlreadyUsed)
  {
    first := l.RequestWithdrawal(Some(uid), 4600, payMethod, details, today);
    ResetIdempotent(old(l.users), uid, FormatDate(today));
    second := l.RequestWithdrawal(Some(uid), 4600, payMethod, details, today);
  }

  /** A balance below twice the amount pays out the amount at most once. */
  method BalanceSpentOnce(l: Ledger, uid: UserId, amount: int, payMethod: string, details: string,
                          today: Date) returns (first: Status, second: Status)
    requires l.Valid() && ValidDate(today)
    requires uid in l.users && l.users[uid].points < 2 * amount
    modifies l`users, l`withdrawals
    ensures l.Valid()
    ensures first == Ok ==> second == Fail(NotEnoughPoints)
  {
    first := l.RequestWithdrawal(Some(uid), amount, payMethod, details, today);
    ResetIdempotent(old(l.users), uid, FormatDate(today));
    second := l.RequestWithdrawal(Some(uid), amount, payMethod, details, today);
  }

  /** The three `mt_rand` draws of one spin: the 80/20 roll, a low prize and a high prize. */
  datatype Draws = Draws(roll: int, low: int, high: int)

  predicate DrawsInRange(d: Draws)
  {
    1 <= d.roll <= 100 && 2 <= d.low <= 10 && 11 <= d.high <= 15
  }

  /**
   * On any day after the stored one, the reset grants twenty spins: whatever the draws,
   * twenty spins succeed and the twenty-first is refused.
   */
  method SpinsRunOut(l: Ledger, uid: UserId, last: Date, today: Date, draws: seq<Draws>)
    returns (results: seq<Status>)
    requires l.Valid() && ValidDate(last) && ValidDate(today) && Before(last, today)
    requires uid in l.users && l.users[uid].lastActivityDate == Some(FormatDate(last))
    requires |draws| == MAX_FREE_SPINS_PER_DAY + 1 && forall i :: 0 <= i < |draws| ==> DrawsInRange(draws[i])
    modifies l`users
    ensures l.Valid()
    ensures |results| == MAX_FREE_SPINS_PER_DAY + 1
    ensures forall i :: 0 <= i < MAX_FREE_SPINS_PER_DAY ==> results[i] == Ok
    ensures results[MAX_FREE_SPINS_PER_DAY] == Fail(NoSpinsLeft)
  {
    ResetIffEarlierDay(l.users[uid], last, today);
    results := [];
    while |results| < MAX_FREE_SPINS_PER_DAY
      invariant l.Valid() && uid in l.users && |results| <= MAX_FREE_SPINS_PER_DAY
      invariant forall i :: 0 <= i < |results| ==> results[i] == Ok
      invariant results == [] ==> NeedsReset(l.users[uid], FormatDate(today))
      invariant results != [] ==>
        !NeedsReset(l.users[uid], FormatDate(today))
        && l.users[uid].spinsLeftToday == MAX_FREE_SPINS_PER_DAY - |results|
      decreases MAX_FREE_SPINS_PER_DAY - |results|
    {
      ResetIdempotent(l.users, uid, FormatDate(today));
      var d := draws[|results|];
      assert DrawsInRange(d);
      var r, points := l.Spin(Some(uid), today, d.roll, d.low, d.high);
      results := results + [r];
    }
    ResetIdempotent(l.users, uid, FormatDate(today));
    var d := draws[MAX_FREE_SPINS_PER_DAY];
    assert DrawsInRange(d);
    var r, points := l.Spin(Some(uid), today, d.roll, d.low, d.high);
    results := results + [r];
  }

  /**
   * A task completed today cannot be completed again the same day. (For a session id with
   * no row both calls answer Ok: the UPDATE matches nothing and the null row has no flags.)
   */
  method TaskDoneOncePerDay(l: Ledger, uid: UserId, taskId: int, today: Date)
    returns (first: Status, again: Status)
    requires l.Valid() && ValidDate(today) && uid in l.users
    modifies l`users
    ensures l.Valid()
    ensures first == Ok ==> again == Fail(TaskAlreadyCompleted)
  {
    var tasks;
    first, tasks := l.CompleteTask(Some(uid), Some(taskId), today);
    ResetIdempotent(old(l.users), uid, FormatDate(today));
    again, tasks := l.CompleteTask(Some(uid), Some(taskId), today);
  }

  /** A user last active today finds every task open again on any later day. */
  method TasksOpenOnLaterDay(l: Ledger, uid: UserId, today: Date, later: Date)
    returns (listed: seq<TaskView>)
    requires l.Valid() && ValidDate(today) && ValidDate(later) && Before(today, later)
    requires uid in l.users && l.users[uid].lastActivityDate == Some(FormatDate(today))
    modifies l`users
    ensures l.Valid()
    ensures |listed| == |Catalog| && forall i :: 0 <= i < |listed| ==> !listed[i].completed
  {
    ResetIffEarlierDay(l.users[uid], today, later);
    var status;
    status, listed := l.GetTasks(Some(uid), later);
  }
}
