/**
 * `/premium_status`: the remaining time of an active row in whole hours and days.
 * The source computes `int(seconds / 3600)` and `int(hours / 24)`, both of which
 * truncate toward zero; Dafny's `/` is Euclidean, so truncation is spelled out.
 */
module Status {
  import opened Common
  import opened Ledger

  /** Division truncating toward zero, as Python's `int(a / b)` does for b > 0. */
  function TruncDiv(a: int, b: int): (q: int)
    requires b > 0
    ensures a >= 0 ==> q >= 0 && q * b <= a < q * b + b
    ensures a < 0 ==> q <= 0 && q * b - b < a <= q * b
  {
    if a >= 0 then a / b else -((-a) / b)
  }

  /** The "Expires in" text: days and hours, or hours alone. */
  datatype Remaining = DaysHours(days: int, hours: int) | Hours(hours: int)

  function RemainingOf(secondsLeft: int): (r: Remaining)
    ensures r.DaysHours? <==> secondsLeft >= 86400
    ensures r.DaysHours? ==>
      && r.days >= 1 && 0 <= r.hours < 24
      && (r.days * 24 + r.hours) * 3600 <= secondsLeft < (r.days * 24 + r.hours) * 3600 + 3600
    ensures r.Hours? && secondsLeft >= 0 ==> 0 <= r.hours < 24 && r.hours * 3600 <= secondsLeft < r.hours * 3600 + 3600
    ensures r.Hours? && secondsLeft < 0 ==> r.hours <= 0 && r.hours * 3600 - 3600 < secondsLeft <= r.hours * 3600
  {
    var hoursLeft := TruncDiv(secondsLeft, 3600);
    var daysLeft := TruncDiv(hoursLeft, 24);
    if daysLeft > 0 then DaysHours(daysLeft, hoursLeft % 24) else Hours(hoursLeft)
  }

  datatype StatusReply =
    | NoAccount                              // "Please use /start first"
    | Active(left: Remaining, expiry: int)   // ACTIVE, expires in ..., expiry date
    | Expired                                // EXPIRED: the trial was used
    | Inactive                               // INACTIVE: the trial is still available

  /** The reply for the user's row, if any. */
  function StatusOf(row: Option<UserRow>, now: int): (r: StatusReply)
    ensures r == NoAccount <==> row.None?
    ensures r.Active? <==> row.Some? && row.value.premiumStatus && row.value.premiumExpiry.Some?
    ensures r.Active? ==> r.expiry == row.value.premiumExpiry.value
    ensures r.Active? ==> r.left == RemainingOf(row.value.premiumExpiry.value - now)
    ensures r == Expired <==> row.Some? && !r.Active? && row.value.freeTrialUsed
  {
    match row
    case None => NoAccount
    case Some(u) =>
      if u.premiumStatus && u.premiumExpiry.Some? then
        Active(RemainingOf(u.premiumExpiry.value - now), u.premiumExpiry.value)
      else if u.freeTrialUsed then Expired
      else Inactive
  }

  /** The row of `uid` in the table, as the `SELECT` returns it. */
  function RowOf(t: Table, uid: int): Option<UserRow>
  {
    if uid in t then Some(t[uid]) else None
  }

  /** Every row is created with the trial used, so INACTIVE is never shown for a
      table the handlers produced. */
  lemma NeverInactive(t: Table, uid: int, now: int)
    requires TableInvariant(t)
    ensures StatusOf(RowOf(t, uid), now) != Inactive
  {
  }

  /** A row whose expiry has passed but which the sweep has not cleared is still shown
      as ACTIVE, with zero or fewer hours left. */
  lemma StaleRowShownActive(t: Table, uid: int, now: int)
    requires uid in t && IsExpired(t[uid], now)
    ensures StatusOf(RowOf(t, uid), now).Active?
    ensures StatusOf(RowOf(t, uid), now).left.Hours? && StatusOf(RowOf(t, uid), now).left.hours <= 0
  {
  }

  /** Within the first hour after `start` the trial shows "23 hours": the stored
      expiry is 24 hours after the grant, and any later clock leaves less than a day. */
  lemma FreshTrialShowsTwentyThreeHours(elapsed: int)
    requires 0 < elapsed <= 3600
    ensures RemainingOf(TRIAL_SECONDS - elapsed) == Hours(23)
  {
    var left := TRIAL_SECONDS - elapsed;
    assert 23 * 3600 <= left < 24 * 3600;
    assert TruncDiv(left, 3600) == 23;
    assert TruncDiv(23, 24) == 0;
  }

  /** What the source's handler does with an active row: the column comes back from
      SQLite as text, `expiry - datetime.now()` raises TypeError, and no reply is sent
      (None). Every other row gets the reply of StatusOf. */
  function StatusAsWritten(row: Option<UserRow>, now: int): (r: Option<StatusReply>)
    ensures r.None? <==> StatusOf(row, now).Active?
    ensures r.Some? ==> r.value == StatusOf(row, now)
  {
    match row
    case Some(u) =>
      if u.premiumStatus && u.premiumExpiry.Some? then None else Some(StatusOf(row, now))
    case None => Some(NoAccount)
  }

  /** The discrepancy: a user fresh from `start` at `now` asks for the status within
      the hour at `later` and gets nothing, where the intended reply is ACTIVE with
      23 hours left. */
  lemma StatusAsWrittenFailsOnTrial(uid: int, name: string, now: int, later: int)
    requires now < later <= now + 3600
    ensures StatusAsWritten(RowOf(Admit(map[], uid, None, name, now), uid), later).None?
    ensures StatusOf(RowOf(Admit(map[], uid, None, name, now), uid), later)
         == Active(Hours(23), now + TRIAL_SECONDS)
  {
    FreshTrialShowsTwentyThreeHours(later - now);
    assert now + TRIAL_SECONDS - later == TRIAL_SECONDS - (later - now);
  }
}
