/**
 * The bot object: the `users` table and the saved broadcast text, and the
 * handlers that read and change them. Each handler applies its SQL statements
 * as one update of the table. Chat replies are returned as values; the
 * results of calls to the chat platform (channel membership, message
 * delivery) are parameters.
 */
module Bot {
  import opened Common
  import opened Validation
  import opened Ledger
  import Lookup
  import Status

  /** The range of an SQLite INTEGER; binding a Python int outside it raises OverflowError. */
  const INT64_MIN := -0x8000_0000_0000_0000
  const INT64_MAX := 0x7FFF_FFFF_FFFF_FFFF

  /** `start`'s reply: welcome or welcome back, with or without the join buttons. */
  datatype StartReply = StartReply(newUser: bool, askToJoin: bool)

  /** `verify_join`'s reply. */
  datatype JoinReply =
    | JoinVerified     // "Verification successful"
    | JoinFirst        // "Please join the channel first!"
    | JoinCheckFailed  // "Error verifying join": the membership query raised

  /** The replies of the three operator commands. */
  datatype AdminReply =
    | NotAdmin                                        // "This command is for admin only."
    | Usage                                           // the command was given no arguments
    | InvalidUserId                                   // `int(...)` raised ValueError
    | GrantFailed                                     // any other error: "Error granting premium"
    | PremiumGranted(target: int)
    | UserNotFound
    | BroadcastDone(success: nat, fail: nat)
    | BroadcastAborted(success: nat, fail: nat)       // the handler raised mid-loop
    | Statistics(total: nat, premium: nat, verified: nat)

  /** `' '.join(words)`. */
  function JoinWords(words: seq<string>): string
  {
    if words == [] then ""
    else if |words| == 1 then words[0]
    else words[0] + " " + JoinWords(words[1..])
  }

  /** The joined text starts with the first word and ends with the last, and a
      space follows the first word when there are several. */
  lemma {:induction false} JoinWordsShape(words: seq<string>)
    ensures words == [] ==> JoinWords(words) == ""
    ensures |words| > 0 ==> words[0] <= JoinWords(words)
    ensures |words| > 0 ==>
      (|words[|words| - 1]| <= |JoinWords(words)|
       && JoinWords(words)[|JoinWords(words)| - |words[|words| - 1]|..] == words[|words| - 1])
    ensures |words| > 1 ==> |words[0]| < |JoinWords(words)| && JoinWords(words)[|words[0]|] == ' '
    ensures |JoinWords(words)| >= |words| - 1
  {
    if |words| > 1 {
      JoinWordsShape(words[1..]);
      var r, rest := JoinWords(words), JoinWords(words[1..]);
      var last := words[|words| - 1];
      assert words[1..][|words[1..]| - 1] == last;
      assert r[|r| - |last|..] == rest[|rest| - |last|..];
    }
  }

  /** The total number of characters in the words. */
  function TotalLength(words: seq<string>): nat
  {
    if words == [] then 0 else |words[0]| + TotalLength(words[1..])
  }

  /** Where word k starts in the joined text: each earlier word and its separator. */
  function WordOffset(words: seq<string>, k: nat): nat
    requires k <= |words|
  {
    if k == 0 then 0 else |words[0]| + 1 + WordOffset(words[1..], k - 1)
  }

  /** The joined text is the words' characters plus one separator between each pair. */
  lemma {:induction false} JoinWordsLength(words: seq<string>)
    requires |words| > 0
    ensures |JoinWords(words)| == TotalLength(words) + |words| - 1
  {
    if |words| > 1 {
      JoinWordsLength(words[1..]);
    }
  }

  /** A slice of the second part of a concatenation, shifted by the first part. */
  lemma AppendSlice(p: string, r: string, a: nat, b: nat)
    requires a <= b <= |r|
    ensures (p + r)[|p| + a .. |p| + b] == r[a..b]
  {
    var s := p + r;
    assert forall i :: 0 <= i < b - a ==> s[|p| + a .. |p| + b][i] == r[a..b][i];
  }

  /** Word k sits at its offset in the joined text, and every word but the last is
      followed by a single space. With `JoinWordsLength` this fixes every character. */
  lemma {:induction false} JoinWordsAt(words: seq<string>, k: nat)
    requires k < |words|
    ensures WordOffset(words, k) + |words[k]| <= |JoinWords(words)|
    ensures JoinWords(words)[WordOffset(words, k) .. WordOffset(words, k) + |words[k]|] == words[k]
    ensures k < |words| - 1 ==>
      (WordOffset(words, k) + |words[k]| < |JoinWords(words)|
       && JoinWords(words)[WordOffset(words, k) + |words[k]|] == ' ')
  {
    if |words| > 1 {
      var head, rest := words[0] + " ", JoinWords(words[1..]);
      assert JoinWords(words) == head + rest;
      if k == 0 {
        assert (head + rest)[..|words[0]|] == words[0];
      } else {
        JoinWordsAt(words[1..], k - 1);
        assert words[1..][k - 1] == words[k];
        var a := WordOffset(words[1..], k - 1);
        AppendSlice(head, rest, a, a + |words[k]|);
      }
    }
  }

  /** The update loop of the expiry sweep: clears premium on each listed row, in order. */
  method ClearRows(t: Table, us: seq<int>) returns (r: Table)
    ensures r == ClearEach(t, us)
  {
    r := t;
    var i := 0;
    while i < |us|
      invariant 0 <= i <= |us|
      invariant r == ClearEach(t, us[..i])
    {
      var u := us[i];
      assert us[..i + 1][..i] == us[..i];
      if u in r {
        r := r[u := Cleared(r[u])];
      }
      i := i + 1;
    }
    assert us[..i] == us;
  }

  /**
   * The delivery loop of `/broadcast`: one send attempt per id in scan order,
   * an attempt succeeding exactly when its id is in `delivered`.
   */
  method SendAll(order: seq<int>, delivered: set<int>) returns (success: nat, fail: nat)
    ensures success == CountIn(order, delivered)
    ensures success + fail == |order|
  {
    var i := 0;
    success, fail := 0, 0;
    while i < |order|
      invariant 0 <= i <= |order|
      invariant success == CountIn(order[..i], delivered)
      invariant success + fail == i
    {
      assert order[..i + 1][..i] == order[..i];
      if order[i] in delivered {
        success := success + 1;
      } else {
        fail := fail + 1;
      }
      i := i + 1;
    }
    assert order[..i] == order;
  }

  class OSINTBot {
    var users: Table
    /** The table's scan order, assumed to be its user ids ascending: SQL promises no
        order without ORDER BY, but SQLite scans this table, which has no other index,
        by rowid, and an INTEGER PRIMARY KEY is the rowid. */
    var ids: seq<int>
    /** `broadcast_text` of row 1 of the `admin` table. */
    var broadcastText: Option<string>

    ghost predicate Valid()
      reads this
    {
      TableInvariant(users) && IsRowOrder(ids, users)
    }

    /** A fresh database: both tables empty. */
    constructor ()
      ensures Valid() && users == map[] && broadcastText == None
    {
      users := map[];
      ids := [];
      broadcastText := None;
    }

    /** `/start`: a trial row for a new user, nothing for a known one; the join
        buttons are shown unless the row is already verified. */
    method Start(uid: int, username: Option<string>, firstName: string, now: int)
      returns (reply: StartReply)
      requires Valid()
      modifies this
      ensures Valid()
      ensures users == Admit(old(users), uid, username, firstName, now)
      ensures broadcastText == old(broadcastText)
      ensures reply.newUser == (uid !in old(users))
      ensures reply.askToJoin == !users[uid].forceJoined
      ensures uid in old(users) ==> reply.askToJoin == !old(users)[uid].forceJoined
      ensures uid !in old(users) ==> reply.askToJoin
    {
      var isNew := uid !in users;
      if isNew {
        ids := InsertKey(ids, uid);
        users := users[uid := TrialRow(username, firstName, now)];
        assert Elems(ids) == users.Keys;
      }
      reply := StartReply(isNew, !users[uid].forceJoined);
    }

    /** The "Verify Join" button. `membership` is the status the platform reports for
        the user in the channel, or None when the query raised. */
    method VerifyJoin(uid: int, membership: Option<string>) returns (reply: JoinReply)
      requires Valid()
      modifies this
      ensures Valid()
      ensures broadcastText == old(broadcastText)
      ensures membership.Some? && IsJoinedStatus(membership.value) ==>
        reply == JoinVerified && users == MarkJoined(old(users), uid)
      ensures membership.Some? && !IsJoinedStatus(membership.value) ==>
        reply == JoinFirst && users == old(users)
      ensures membership.None? ==> reply == JoinCheckFailed && users == old(users)
    {
      match membership
      case None =>
        reply := JoinCheckFailed;
      case Some(status) =>
        if IsJoinedStatus(status) {
          users := MarkJoined(users, uid);
          reply := JoinVerified;
        } else {
          reply := JoinFirst;
        }
    }

    /** The shared prefix of `/aadhaar`, `/vehicle` and `/phone`; it changes nothing. */
    method LookupCommand(uid: int, kind: Lookup.LookupKind, args: seq<string>)
      returns (d: Lookup.Decision)
      ensures d == Lookup.Decide(users, uid, kind, args)
      ensures d.Fetch? ==> Authorize(users, uid) == Allowed
    {
      d := Lookup.Decide(users, uid, kind, args);
    }

    /** `/premium_status` as intended; it changes nothing. As written, the handler
        subtracts a datetime from the expiry that SQLite hands back as text, and
        raises instead of replying for every active row (`Status.StatusAsWritten`). */
    method PremiumStatus(uid: int, now: int) returns (reply: Status.StatusReply)
      requires Valid()
      ensures reply == Status.StatusOf(Status.RowOf(users, uid), now)
      ensures reply != Status.Inactive
    {
      Status.NeverInactive(users, uid, now);
      reply := Status.StatusOf(Status.RowOf(users, uid), now);
    }

    /** The hourly job: select the expired premium rows, then clear them one update
        at a time. Returns the selected users, each of whom is then sent a notice. */
    method CheckPremiumExpiry(now: int) returns (expired: seq<int>)
      requires Valid()
      modifies this
      ensures Valid()
      ensures users == Sweep(old(users), now)
      ensures Elems(expired) == ExpiredIds(old(users), now)
      ensures broadcastText == old(broadcastText)
    {
      expired := SelectExpired(ids, users, now);
      SelectThenClear(ids, users, now);
      users := ClearRows(users, expired);
    }

    /** `/premium <user_id>`: thirty days of premium for an existing row. */
    method PremiumCommand(caller: int, args: seq<string>, now: int) returns (reply: AdminReply)
      requires Valid()
      modifies this
      ensures Valid()
      ensures broadcastText == old(broadcastText)
      ensures caller != ADMIN_USER_ID ==> reply == NotAdmin && users == old(users)
      ensures caller == ADMIN_USER_ID && |args| == 0 ==> reply == Usage && users == old(users)
      ensures caller == ADMIN_USER_ID && |args| > 0 && ParseInt(args[0]).None? ==>
        reply == InvalidUserId && users == old(users)
      ensures caller == ADMIN_USER_ID && |args| > 0 && ParseInt(args[0]).Some? ==>
        var target := ParseInt(args[0]).value;
        if !(INT64_MIN <= target <= INT64_MAX) then reply == GrantFailed && users == old(users)
        else if target in old(users) then reply == PremiumGranted(target) && users == Grant(old(users), target, now)
        else reply == UserNotFound && users == old(users)
    {
      if caller != ADMIN_USER_ID {
        return NotAdmin;
      }
      if |args| == 0 {
        return Usage;
      }
      match ParseInt(args[0])
      case None =>
        reply := InvalidUserId;
      case Some(target) =>
        if !(INT64_MIN <= target <= INT64_MAX) {
          reply := GrantFailed;
        } else {
          // The UPDATE runs either way; its row count says whether the user exists.
          var rowcount := if target in users then 1 else 0;
          users := Grant(users, target, now);
          reply := if rowcount > 0 then PremiumGranted(target) else UserNotFound;
        }
    }

    /** `/broadcast <words>`, as intended: save the text, then send it to every user
        in scan order, counting each delivery as a success or a failure. `delivered`
        is the set of users the platform accepts the message for. */
    method Broadcast(caller: int, args: seq<string>, delivered: set<int>) returns (reply: AdminReply)
      requires Valid()
      modifies this
      ensures Valid()
      ensures users == old(users)
      ensures caller != ADMIN_USER_ID ==> reply == NotAdmin && broadcastText == old(broadcastText)
      ensures caller == ADMIN_USER_ID && |args| == 0 ==> reply == Usage && broadcastText == old(broadcastText)
      ensures caller == ADMIN_USER_ID && |args| > 0 ==>
        && broadcastText == Some(JoinWords(args))
        && reply == BroadcastDone(|users.Keys * delivered|, |users.Keys - delivered|)
        && reply.success + reply.fail == |users|
    {
      if caller != ADMIN_USER_ID {
        return NotAdmin;
      }
      if |args| == 0 {
        return Usage;
      }
      broadcastText := Some(JoinWords(args));
      var success, fail := SendAll(ids, delivered);
      ScanCounts(ids, users, delivered);
      reply := BroadcastDone(success, fail);
    }

    /** `/broadcast` as the source has it: the loop's `asyncio.sleep` names a module
        that is never imported, so the handler raises right after the first send.
        Only the first user in scan order is sent the text, and no report is shown;
        under the assumed rowid scan order that user is the one with the smallest id. */
    method BroadcastAsWritten(caller: int, args: seq<string>, delivered: set<int>)
      returns (reply: AdminReply)
      requires Valid()
      modifies this
      ensures Valid()
      ensures users == old(users)
      ensures caller != ADMIN_USER_ID ==> reply == NotAdmin && broadcastText == old(broadcastText)
      ensures caller == ADMIN_USER_ID && |args| == 0 ==> reply == Usage && broadcastText == old(broadcastText)
      ensures caller == ADMIN_USER_ID && |args| > 0 ==> broadcastText == Some(JoinWords(args))
      ensures caller == ADMIN_USER_ID && |args| > 0 && |users| == 0 ==> reply == BroadcastDone(0, 0)
      ensures caller == ADMIN_USER_ID && |args| > 0 && |users| > 0 ==>
        && reply.BroadcastAborted? && reply.success + reply.fail == 1
        && exists first :: first in users && (forall u :: u in users ==> first <= u)
                        && reply.success == (if first in delivered then 1 else 0)
    {
      if caller != ADMIN_USER_ID {
        return NotAdmin;
      }
      if |args| == 0 {
        return Usage;
      }
      broadcastText := Some(JoinWords(args));
      ElemsCard(ids);
      if ids == [] {
        return BroadcastDone(0, 0);
      }
      var first := ids[0];
      RowOrderHead(ids, users);
      reply := if first in delivered then BroadcastAborted(1, 0) else BroadcastAborted(0, 1);
      assert first in users && (forall u :: u in users ==> first <= u)
        && reply.success == (if first in delivered then 1 else 0);
    }

    /** `/stats`: the three counts; it changes nothing. */
    method Stats(caller: int) returns (reply: AdminReply)
      ensures caller != ADMIN_USER_ID ==> reply == NotAdmin
      ensures caller == ADMIN_USER_ID ==>
        reply == Statistics(|users|, |PremiumIds(users)|, |VerifiedIds(users)|)
      ensures reply.Statistics? ==> reply.premium <= reply.total && reply.verified <= reply.total
    {
      if caller != ADMIN_USER_ID {
        return NotAdmin;
      }
      SubsetCard(PremiumIds(users), users.Keys);
      SubsetCard(VerifiedIds(users), users.Keys);
      reply := Statistics(|users|, |PremiumIds(users)|, |VerifiedIds(users)|);
    }
  }
}
