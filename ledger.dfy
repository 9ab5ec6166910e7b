/**
 * The `users` table of the bot and the effect each handler has on it, stated
 * as functions from the table before to the table after. Timestamps are whole
 * seconds; `now` is the handler's `datetime.now()`.
 */
module Ledger {
  import opened Common

  /** The single operator identity. */
  const ADMIN_USER_ID := 7755338110
  /** `timedelta(hours=24)`, the free trial. */
  const TRIAL_SECONDS := 86400
  /** `timedelta(days=30)`, the admin grant. */
  const GRANT_SECONDS := 2592000

  /** One row of the `users` table; `username` is nullable, the rest defaults to false / NULL. */
  datatype UserRow = UserRow(
    username: Option<string>,
    firstName: string,
    joinDate: int,
    premiumStatus: bool,
    premiumExpiry: Option<int>,
    forceJoined: bool,
    freeTrialUsed: bool)

  /** `users`, keyed by the `user_id` primary key. */
  type Table = map<int, UserRow>

  /** What every handler keeps true: only `start` inserts rows, and always with the
      trial flag; premium is never switched on without an expiry. */
  predicate TableInvariant(t: Table)
  {
    forall u :: u in t ==> t[u].freeTrialUsed && (t[u].premiumStatus ==> t[u].premiumExpiry.Some?)
  }

  /** The row `start` inserts: 24 hours of premium, the trial used, not yet verified. */
  function TrialRow(username: Option<string>, firstName: string, now: int): (row: UserRow)
    ensures row.premiumStatus && row.premiumExpiry == Some(now + TRIAL_SECONDS)
    ensures row.freeTrialUsed && !row.forceJoined
    ensures row.username == username && row.firstName == firstName && row.joinDate == now
  {
    UserRow(username, firstName, now, true, Some(now + TRIAL_SECONDS), false, true)
  }

  /** `start`: insert the trial row only when the user has none. */
  function Admit(t: Table, uid: int, username: Option<string>, firstName: string, now: int): (r: Table)
    ensures r.Keys == t.Keys + {uid}
    ensures forall u :: u in t ==> r[u] == t[u]
    ensures uid !in t ==>
      && r[uid].premiumStatus && r[uid].premiumExpiry == Some(now + TRIAL_SECONDS)
      && r[uid].freeTrialUsed && !r[uid].forceJoined
      && r[uid].username == username && r[uid].firstName == firstName
      && r[uid].joinDate == now
    ensures TableInvariant(t) ==> TableInvariant(r)
  {
    if uid in t then t else t[uid := TrialRow(username, firstName, now)]
  }

  /** No repeat trial: a second `start` of the same user, at any later time, changes nothing. */
  lemma NoRepeatTrial(t: Table, uid: int, n1: Option<string>, f1: string, now1: int,
                      n2: Option<string>, f2: string, now2: int)
    ensures Admit(Admit(t, uid, n1, f1, now1), uid, n2, f2, now2) == Admit(t, uid, n1, f1, now1)
  {
  }

  /** The channel membership statuses `verify_join` accepts. */
  predicate IsJoinedStatus(status: string)
  {
    status == "member" || status == "administrator" || status == "creator"
  }

  /** `UPDATE users SET force_joined = TRUE WHERE user_id = ?`. */
  function MarkJoined(t: Table, uid: int): (r: Table)
    ensures r.Keys == t.Keys
    ensures forall u :: u in t && u != uid ==> r[u] == t[u]
    ensures uid in t ==> r[uid].forceJoined && r[uid] == t[uid].(forceJoined := true)
    ensures TableInvariant(t) ==> TableInvariant(r)
  {
    if uid in t then t[uid := t[uid].(forceJoined := true)] else t
  }

  /** The sweep's selection: `premium_status = 1 AND premium_expiry < now`
      (a NULL expiry never compares less). */
  predicate IsExpired(row: UserRow, now: int)
  {
    row.premiumStatus && row.premiumExpiry.Some? && row.premiumExpiry.value < now
  }

  /** `SET premium_status = 0, premium_expiry = NULL`. */
  function Cleared(row: UserRow): UserRow
  {
    row.(premiumStatus := false, premiumExpiry := None)
  }

  function ExpiredIds(t: Table, now: int): (s: set<int>)
    ensures s <= t.Keys
  {
    set u | u in t && IsExpired(t[u], now)
  }

  /** `check_premium_expiry`: every expired premium row is cleared, nothing else changes. */
  function Sweep(t: Table, now: int): (r: Table)
    ensures r.Keys == t.Keys
    ensures forall u :: u in t && IsExpired(t[u], now) ==> !r[u].premiumStatus && r[u].premiumExpiry.None?
    ensures forall u :: u in t && !IsExpired(t[u], now) ==> r[u] == t[u]
    ensures forall u :: u in t ==>
      && r[u].forceJoined == t[u].forceJoined && r[u].freeTrialUsed == t[u].freeTrialUsed
      && r[u].username == t[u].username && r[u].firstName == t[u].firstName
      && r[u].joinDate == t[u].joinDate
    ensures forall u :: u in r ==> !IsExpired(r[u], now)
    ensures TableInvariant(t) ==> TableInvariant(r)
  {
    map u | u in t :: if IsExpired(t[u], now) then Cleared(t[u]) else t[u]
  }

  /** `UPDATE users SET premium_status = 0, premium_expiry = NULL WHERE user_id = ?`, once per id of `us`, in order. */
  function ClearEach(t: Table, us: seq<int>): (r: Table)
    ensures r.Keys == t.Keys
    decreases |us|
  {
    if us == [] then t
    else
      var p := ClearEach(t, us[..|us| - 1]);
      var u := us[|us| - 1];
      if u in p then p[u := Cleared(p[u])] else p
  }

  /** After the per-id updates, a row is cleared exactly when its id was in the list. */
  lemma {:induction false} ClearEachAt(t: Table, us: seq<int>, u: int)
    requires u in t
    ensures ClearEach(t, us)[u] == if u in us then Cleared(t[u]) else t[u]
    decreases |us|
  {
    if us != [] {
      var prefix := us[..|us| - 1];
      assert us == prefix + [us[|us| - 1]];
      ClearEachAt(t, prefix, u);
    }
  }

  /** Updating every id the expiry query returned is the sweep. */
  lemma ClearEachIsSweep(t: Table, us: seq<int>, now: int)
    requires forall u :: u in us <==> u in t && IsExpired(t[u], now)
    ensures ClearEach(t, us) == Sweep(t, now)
  {
    forall u | u in t
      ensures ClearEach(t, us)[u] == Sweep(t, now)[u]
    {
      ClearEachAt(t, us, u);
    }
  }

  /** A second sweep with the same clock is a no-op. */
  lemma SweepIdempotent(t: Table, now: int)
    ensures Sweep(Sweep(t, now), now) == Sweep(t, now)
  {
  }

  /** `UPDATE users SET premium_status = TRUE, premium_expiry = now + 30 days WHERE user_id = target`. */
  function Grant(t: Table, target: int, now: int): (r: Table)
    ensures r.Keys == t.Keys
    ensures forall u :: u in t && u != target ==> r[u] == t[u]
    ensures target in t ==>
      && r[target].premiumStatus && r[target].premiumExpiry == Some(now + GRANT_SECONDS)
      && r[target].forceJoined == t[target].forceJoined
      && r[target].freeTrialUsed == t[target].freeTrialUsed
      && r[target].username == t[target].username && r[target].firstName == t[target].firstName
      && r[target].joinDate == t[target].joinDate
    ensures target !in t ==> r == t
    ensures TableInvariant(t) ==> TableInvariant(r)
  {
    if target in t
    then t[target := t[target].(premiumStatus := true, premiumExpiry := Some(now + GRANT_SECONDS))]
    else t
  }

  /** Verification never reverts: no table operation turns `force_joined` off. */
  lemma JoinedIsPermanent(t: Table, uid: int, u: int, username: Option<string>, firstName: string, now: int)
    requires u in t && t[u].forceJoined
    ensures Admit(t, uid, username, firstName, now)[u].forceJoined
    ensures MarkJoined(t, uid)[u].forceJoined
    ensures Sweep(t, now)[u].forceJoined
    ensures Grant(t, uid, now)[u].forceJoined
  {
  }

  // ---- the authorization prefix shared by the three lookups ----

  datatype Access = NotVerified | PremiumExpired | Allowed

  /** Row exists and `force_joined`, then `premium_status`; the expiry time is not consulted. */
  function Authorize(t: Table, uid: int): (a: Access)
    ensures a == Allowed <==> uid in t && t[uid].forceJoined && t[uid].premiumStatus
    ensures a == NotVerified <==> uid !in t || !t[uid].forceJoined
    ensures a == PremiumExpired <==> uid in t && t[uid].forceJoined && !t[uid].premiumStatus
  {
    if uid !in t || !t[uid].forceJoined then NotVerified
    else if !t[uid].premiumStatus then PremiumExpired
    else Allowed
  }

  /** Until the sweep runs, a verified user whose expiry has passed keeps access;
      once it has run, the same user is refused as expired. */
  lemma StaleFlagUntilSweep(t: Table, uid: int, now: int)
    requires uid in t && t[uid].forceJoined && IsExpired(t[uid], now)
    ensures Authorize(t, uid) == Allowed
    ensures Authorize(Sweep(t, now), uid) == PremiumExpired
  {
  }

  /** Right after a sweep, the flag the gate reads and the expiry agree: access is
      allowed only to rows whose expiry has not passed. */
  lemma AllowedAfterSweepIsCurrent(t: Table, uid: int, now: int)
    requires TableInvariant(t)
    requires Authorize(Sweep(t, now), uid) == Allowed
    ensures Sweep(t, now)[uid].premiumExpiry.Some? && Sweep(t, now)[uid].premiumExpiry.value >= now
  {
  }

  // ---- the counts of `stats` ----

  function PremiumIds(t: Table): (s: set<int>)
    ensures s <= t.Keys
  {
    set u | u in t && t[u].premiumStatus
  }

  function VerifiedIds(t: Table): (s: set<int>)
    ensures s <= t.Keys
  {
    set u | u in t && t[u].forceJoined
  }

  /** A sweep lowers the premium count by exactly the number of expired rows and
      leaves the total and the verified count alone. */
  lemma SweepCounts(t: Table, now: int)
    ensures |Sweep(t, now)| == |t|
    ensures VerifiedIds(Sweep(t, now)) == VerifiedIds(t)
    ensures |PremiumIds(Sweep(t, now))| == |PremiumIds(t)| - |ExpiredIds(t, now)|
  {
    var r := Sweep(t, now);
    assert r.Keys == t.Keys;
    assert PremiumIds(r) == PremiumIds(t) - ExpiredIds(t, now);
    assert ExpiredIds(t, now) <= PremiumIds(t);
    SubsetDifferenceSize(PremiumIds(t), ExpiredIds(t, now));
  }

  lemma SubsetDifferenceSize(a: set<int>, b: set<int>)
    requires b <= a
    ensures |a - b| == |a| - |b|
  {
    assert a == (a - b) + b;
  }

  /** First contact of a new user adds one row, one premium row and no verified row. */
  lemma AdmitCounts(t: Table, uid: int, username: Option<string>, firstName: string, now: int)
    requires uid !in t
    ensures |Admit(t, uid, username, firstName, now)| == |t| + 1
    ensures |PremiumIds(Admit(t, uid, username, firstName, now))| == |PremiumIds(t)| + 1
    ensures VerifiedIds(Admit(t, uid, username, firstName, now)) == VerifiedIds(t)
  {
    var row := TrialRow(username, firstName, now);
    assert Admit(t, uid, username, firstName, now) == t[uid := row];
    PremiumIdsInsert(t, uid, row);
    VerifiedIdsInsert(t, uid, row);
  }

  lemma PremiumIdsInsert(t: Table, uid: int, row: UserRow)
    requires uid !in t && row.premiumStatus
    ensures PremiumIds(t[uid := row]) == PremiumIds(t) + {uid}
    ensures uid !in PremiumIds(t)
  {
  }

  lemma VerifiedIdsInsert(t: Table, uid: int, row: UserRow)
    requires uid !in t && !row.forceJoined
    ensures VerifiedIds(t[uid := row]) == VerifiedIds(t)
  {
  }

  // ---- the scan order of the table ----

  predicate Increasing(s: seq<int>)
  {
    forall i, j :: 0 <= i < j < |s| ==> s[i] < s[j]
  }

  function Elems(s: seq<int>): set<int>
  {
    set u | u in s
  }

  /** `user_id INTEGER PRIMARY KEY` makes the user id the rowid, and a full scan
      (`SELECT user_id FROM users`) returns the rows by ascending id: `ids` is
      that order. */
  predicate IsRowOrder(ids: seq<int>, t: Table)
  {
    Increasing(ids) && Elems(ids) == t.Keys
  }

  /** Adding a key to the scan order when `start` inserts a row. */
  function InsertKey(s: seq<int>, x: int): (r: seq<int>)
    requires Increasing(s)
    ensures Increasing(r)
    ensures Elems(r) == Elems(s) + {x}
    ensures |r| > 0 && (r[0] == x || (|s| > 0 && r[0] == s[0]))
  {
    if s == [] then [x]
    else if x < s[0] then
      ElemsCons(x, s);
      IncreasingCons(x, s);
      [x] + s
    else if x == s[0] then s
    else
      assert s == [s[0]] + s[1..];
      IncreasingTail(s);
      var rest := InsertKey(s[1..], x);
      ElemsCons(s[0], s[1..]);
      ElemsCons(s[0], rest);
      IncreasingCons(s[0], rest);
      [s[0]] + rest
  }

  lemma ElemsCons(x: int, s: seq<int>)
    ensures Elems([x] + s) == {x} + Elems(s)
  {
  }

  lemma ElemsSnoc(s: seq<int>, x: int)
    ensures Elems(s + [x]) == Elems(s) + {x}
  {
  }

  lemma IncreasingTail(s: seq<int>)
    requires Increasing(s) && s != []
    ensures Increasing(s[1..])
    ensures |s| > 1 ==> s[0] < s[1]
  {
  }

  lemma IncreasingCons(y: int, r: seq<int>)
    requires Increasing(r) && (r == [] || y < r[0])
    ensures Increasing([y] + r)
  {
    var q := [y] + r;
    forall i, j | 0 <= i < j < |q| ensures q[i] < q[j] {
      if i == 0 && j > 1 {
        assert r[0] < r[j - 1];
      }
    }
  }

  /** Dropping the last id of a scan: the rest is a scan, and does not hold that id. */
  lemma IncreasingInit(s: seq<int>)
    requires Increasing(s) && s != []
    ensures Increasing(s[..|s| - 1])
    ensures s[|s| - 1] !in Elems(s[..|s| - 1])
    ensures Elems(s) == Elems(s[..|s| - 1]) + {s[|s| - 1]}
  {
    assert s == s[..|s| - 1] + [s[|s| - 1]];
    ElemsSnoc(s[..|s| - 1], s[|s| - 1]);
  }

  /** A scan visits each row once: it is as long as the table has rows. */
  lemma {:induction false} ElemsCard(s: seq<int>)
    requires Increasing(s)
    ensures |Elems(s)| == |s|
  {
    if s != [] {
      IncreasingInit(s);
      ElemsCard(s[..|s| - 1]);
    }
  }

  /** The first id of a scan is the smallest key. */
  lemma RowOrderHead(ids: seq<int>, t: Table)
    requires IsRowOrder(ids, t) && |ids| > 0
    ensures ids[0] in t && forall u :: u in t ==> ids[0] <= u
  {
    assert ids[0] in Elems(ids);
    forall u | u in t
      ensures ids[0] <= u
    {
      assert u in Elems(ids);
      var k :| 0 <= k < |ids| && ids[k] == u;
    }
  }

  /** The ids of a scan that are in `d`. */
  function CountIn(s: seq<int>, d: set<int>): nat
  {
    if s == [] then 0
    else CountIn(s[..|s| - 1], d) + (if s[|s| - 1] in d then 1 else 0)
  }

  /** Counting along a scan gives the size of the matching set of keys. */
  lemma {:induction false} CountInCard(s: seq<int>, d: set<int>)
    requires Increasing(s)
    ensures CountIn(s, d) == |Elems(s) * d|
  {
    if s != [] {
      var init, x := s[..|s| - 1], s[|s| - 1];
      IncreasingInit(s);
      CountInCard(init, d);
      CardStep(Elems(init), x, d);
    }
  }

  lemma CardStep(a: set<int>, x: int, d: set<int>)
    requires x !in a
    ensures |(a + {x}) * d| == |a * d| + (if x in d then 1 else 0)
  {
    if x in d {
      assert (a + {x}) * d == a * d + {x};
    } else {
      assert (a + {x}) * d == a * d;
    }
  }

  /** A full scan counts each row once, as in `d` or not: the two counts are the
      sizes of the matching and the non-matching sets of keys, and add up to the
      number of rows. */
  lemma ScanCounts(ids: seq<int>, t: Table, d: set<int>)
    requires IsRowOrder(ids, t)
    ensures CountIn(ids, d) == |t.Keys * d|
    ensures |ids| - CountIn(ids, d) == |t.Keys - d|
    ensures |ids| == |t|
  {
    CountInCard(ids, d);
    ElemsCard(ids);
    assert t.Keys == (t.Keys * d) + (t.Keys - d);
    assert (t.Keys * d) * (t.Keys - d) == {};
  }

  /** `SELECT user_id FROM users WHERE premium_status = 1 AND premium_expiry < now`, in scan order. */
  function SelectExpired(ids: seq<int>, t: Table, now: int): (r: seq<int>)
    ensures forall u :: u in r <==> u in ids && u in t && IsExpired(t[u], now)
  {
    if ids == [] then []
    else
      (if ids[0] in t && IsExpired(t[ids[0]], now) then [ids[0]] else [])
      + SelectExpired(ids[1..], t, now)
  }

  /**
   * Over a whole scan, the expiry query returns exactly the expired ids, and
   * updating each of them in turn is the sweep.
   */
  lemma SelectThenClear(ids: seq<int>, t: Table, now: int)
    requires IsRowOrder(ids, t)
    ensures Elems(SelectExpired(ids, t, now)) == ExpiredIds(t, now)
    ensures ClearEach(t, SelectExpired(ids, t, now)) == Sweep(t, now)
  {
    ClearEachIsSweep(t, SelectExpired(ids, t, now), now);
  }

  lemma SubsetCard(a: set<int>, b: set<int>)
    requires a <= b
    ensures |a| <= |b|
  {
    assert b == a + (b - a);
  }
}
