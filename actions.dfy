/**
 * The rule each action handler of api.php applies to the row it has read: whether the
 * action is allowed and what the row becomes. The `Ledger` methods apply these rules in place.
 */
module Actions {
  import opened Wrappers
  import opened Php
  import opened Config
  import opened Users
  import opened Outcomes

  /** An answer and the row the handler writes back (the row is unchanged on refusal). */
  datatype Step = Step(status: Status, row: User)

  /**
   * The spin prize: `mt_rand(1, 100) <= 80 ? mt_rand(2, 10) : mt_rand(11, 15)`, with the
   * three draws given as inputs.
   */
  function SpinReward(roll: int, low: int, high: int): (r: int)
    requires 1 <= roll <= 100 && 2 <= low <= 10 && 11 <= high <= 15
    ensures 2 <= r <= 15
    ensures r <= 10 <==> roll <= 80
  {
    if roll <= 80 then low else high
  }

  /** spin: allowed while a spin is left; trades one spin for `reward` points. */
  function SpinStep(u: User, reward: int): (r: Step)
    ensures r.status == Ok <==> u.spinsLeftToday > 0
    ensures r.status != Ok ==> r.status == Fail(NoSpinsLeft) && r.row == u
    ensures r.status == Ok ==>
      && r.row.points == u.points + reward
      && r.row.spinsLeftToday == u.spinsLeftToday - 1
      && r.row == u.(points := r.row.points, spinsLeftToday := r.row.spinsLeftToday)
    ensures RowOk(u) && reward >= 0 ==> RowOk(r.row)
  {
    if u.spinsLeftToday > 0 then
      Step(Ok, u.(points := u.points + reward, spinsLeftToday := u.spinsLeftToday - 1))
    else
      Step(Fail(NoSpinsLeft), u)
  }

  /** getSpinsFromAd: allowed below the spin-ad cap; adds two spins, leaves points alone. */
  function SpinAdStep(u: User): (r: Step)
    ensures r.status == Ok <==> u.spinAdsWatchedToday < MAX_SPIN_ADS_PER_DAY
    ensures r.status != Ok ==> r.status == Fail(SpinAdLimitReached) && r.row == u
    ensures r.status == Ok ==>
      && r.row.spinsLeftToday == u.spinsLeftToday + SPINS_GAINED_PER_AD
      && r.row.spinAdsWatchedToday == u.spinAdsWatchedToday + 1
      && r.row == u.(spinsLeftToday := r.row.spinsLeftToday, spinAdsWatchedToday := r.row.spinAdsWatchedToday)
    ensures u.spinAdsWatchedToday <= MAX_SPIN_ADS_PER_DAY ==> r.row.spinAdsWatchedToday <= MAX_SPIN_ADS_PER_DAY
    ensures RowOk(u) ==> RowOk(r.row)
  {
    if u.spinAdsWatchedToday < MAX_SPIN_ADS_PER_DAY then
      Step(Ok, u.(spinsLeftToday := u.spinsLeftToday + SPINS_GAINED_PER_AD,
                  spinAdsWatchedToday := u.spinAdsWatchedToday + 1))
    else
      Step(Fail(SpinAdLimitReached), u)
  }

  /** adWatched: allowed below the ad cap; adds the per-ad points. */
  function AdStep(u: User): (r: Step)
    ensures r.status == Ok <==> u.adsWatchedToday < MAX_ADS_PER_DAY
    ensures r.status != Ok ==> r.status == Fail(AdLimitReached) && r.row == u
    ensures r.status == Ok ==>
      && r.row.points == u.points + POINTS_PER_AD
      && r.row.adsWatchedToday == u.adsWatchedToday + 1
      && r.row == u.(points := r.row.points, adsWatchedToday := r.row.adsWatchedToday)
    ensures u.adsWatchedToday <= MAX_ADS_PER_DAY ==> r.row.adsWatchedToday <= MAX_ADS_PER_DAY
    ensures RowOk(u) ==> RowOk(r.row)
  {
    if u.adsWatchedToday < MAX_ADS_PER_DAY then
      Step(Ok, u.(points := u.points + POINTS_PER_AD, adsWatchedToday := u.adsWatchedToday + 1))
    else
      Step(Fail(AdLimitReached), u)
  }

  /**
   * completeTask for a catalog task: refused when its flag is already set (a missing key
   * reads false); otherwise sets that one flag and pays the task's reward.
   */
  function CompleteTaskStep(u: User, task: Task): (r: Step)
    ensures r.status == Ok <==> !Completed(u.dailyTasksStatus, task.id)
    ensures r.status != Ok ==> r.status == Fail(TaskAlreadyCompleted) && r.row == u
    ensures r.status == Ok ==>
      && r.row.points == u.points + task.points
      && Completed(r.row.dailyTasksStatus, task.id)
      && r.row.dailyTasksStatus.Keys == u.dailyTasksStatus.Keys + {task.id}
      && (forall id :: id != task.id && id in u.dailyTasksStatus ==>
            r.row.dailyTasksStatus[id] == u.dailyTasksStatus[id])
      && r.row == u.(points := r.row.points, dailyTasksStatus := r.row.dailyTasksStatus)
    ensures RowOk(u) && task in Catalog ==> RowOk(r.row)
  {
    if Completed(u.dailyTasksStatus, task.id) then
      Step(Fail(TaskAlreadyCompleted), u)
    else
      Step(Ok, u.(points := u.points + task.points,
                  dailyTasksStatus := u.dailyTasksStatus[task.id := true]))
  }

  /** The referred user's UPDATE: bonus points and the link to the referrer. */
  function CreditReferred(u: User, referrer: UserId): (r: User)
    ensures r.points == u.points + POINTS_PER_REFERRAL_FOR_REFERRED
    ensures r.referredByUserId == Some(referrer)
    ensures r == u.(points := r.points, referredByUserId := r.referredByUserId)
    ensures RowOk(u) ==> RowOk(r)
  {
    u.(points := u.points + POINTS_PER_REFERRAL_FOR_REFERRED, referredByUserId := Some(referrer))
  }

  /** The referrer's UPDATE: bonus points and one more referral counted. */
  function CreditReferrer(u: User): (r: User)
    ensures r.points == u.points + POINTS_PER_REFERRAL_FOR_REFERRER
    ensures r.totalReferralsMade == u.totalReferralsMade + 1
    ensures r == u.(points := r.points, totalReferralsMade := r.totalReferralsMade)
    ensures RowOk(u) ==> RowOk(r)
  {
    u.(points := u.points + POINTS_PER_REFERRAL_FOR_REFERRER,
       totalReferralsMade := u.totalReferralsMade + 1)
  }

  /** Both credits of a referral, as the committed transaction leaves them. */
  function Credited(users: map<UserId, User>, referred: UserId, referrer: UserId): (r: map<UserId, User>)
    requires referrer in users
    ensures r.Keys == users.Keys
    ensures referrer != referred ==> r[referrer] == CreditReferrer(users[referrer])
    ensures referred in users && referred != referrer ==>
      r[referred] == CreditReferred(users[referred], referrer)
    ensures forall k :: k in users && k != referred && k != referrer ==> r[k] == users[k]
  {
    var afterReferred := Write(users, referred, CreditReferred(Read(users, referred), referrer));
    Write(afterReferred, referrer, CreditReferrer(users[referrer]))
  }

  /** The withdrawal tier of an amount: `Some(isLow)` for the four allowed amounts, else `None`. */
  function TierOf(amount: int): (r: Option<bool>)
    ensures r.Some? <==> amount in {4600, 90000, 170000, 305000}
    ensures r == Some(true) <==> amount == 4600
  {
    if amount == 4600 then Some(true)
    else if amount == 90000 || amount == 170000 || amount == 305000 then Some(false)
    else None
  }

  /**
   * requestWithdrawal's checks, in the source's order: a tier amount, then method and
   * details present, then enough points, then the one-time low tier unused.
   */
  function WithdrawalCheck(amount: int, payMethod: string, details: string, points: int, usedLow: bool): (r: Option<Failure>)
    ensures r.None? <==>
      TierOf(amount).Some? && !Blank(payMethod) && !Blank(details) && points >= amount
      && !(amount == 4600 && usedLow)
    ensures TierOf(amount).None? ==> r == Some(InvalidAmount)
    ensures TierOf(amount).Some? && (Blank(payMethod) || Blank(details)) ==>
      r == Some(MethodAndDetailsRequired)
    ensures TierOf(amount).Some? && !Blank(payMethod) && !Blank(details) && points < amount ==>
      r == Some(NotEnoughPoints)
    ensures (TierOf(amount).Some? && !Blank(payMethod) && !Blank(details) && points >= amount
             && amount == 4600 && usedLow) ==> r == Some(LowTierAlreadyUsed)
  {
    var tier := TierOf(amount);
    if tier.None? then Some(InvalidAmount)
    else if Blank(payMethod) || Blank(details) then Some(MethodAndDetailsRequired)
    else if points < amount then Some(NotEnoughPoints)
    else if tier.value && usedLow then Some(LowTierAlreadyUsed)
    else None
  }

  /** The row after a committed withdrawal: points down by the amount, low tier marked used. */
  function Withdrawn(u: User, amount: int): (r: User)
    ensures r.points == u.points - amount
    ensures r.used4600Withdrawal <==> u.used4600Withdrawal || amount == 4600
    ensures r == u.(points := r.points, used4600Withdrawal := r.used4600Withdrawal)
    ensures RowOk(u) && u.points >= amount ==> RowOk(r)
  {
    u.(points := u.points - amount,
       used4600Withdrawal := u.used4600Withdrawal || TierOf(amount) == Some(true))
  }

  /** A withdrawal that passed the checks leaves a non-negative balance. */
  lemma WithdrawalNeverOverdraws(u: User, amount: int, payMethod: string, details: string)
    requires WithdrawalCheck(amount, payMethod, details, u.points, u.used4600Withdrawal).None?
    ensures Withdrawn(u, amount).points >= 0
    ensures amount > 0
  {
  }

  /** Once the low tier has been paid out, every later request for it is refused. */
  lemma LowTierOnlyOnce(u: User, payMethod: string, details: string, points: int)
    ensures WithdrawalCheck(4600, payMethod, details, points, Withdrawn(u, 4600).used4600Withdrawal).Some?
  {
  }
}
