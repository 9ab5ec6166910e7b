# Access ledger of the OSINT lookup bot

`main.py` is a chat bot that answers three lookup commands (Aadhaar, vehicle
and Pakistani phone numbers) by calling external HTTP services. The part
modelled here is the access control under that glue:

- the `users` table (`user_id` primary key; `premium_status`,
  `premium_expiry`, `force_joined`, `free_trial_used`, names, join date);
- `/start`, which grants a one-time 24-hour trial;
- the "Verify Join" button, which records channel membership;
- the gate the three lookups share, with their argument checks;
- the hourly expiry sweep;
- the operator commands `/premium`, `/broadcast` and `/stats`;
- `/premium_status`, with its hours and days arithmetic;
- the split of long replies into messages of 4096 characters.

Time is a whole number of seconds, `now`, passed to each handler: the trial
is 86400 s and the operator grant 2592000 s. The table is `map<int, UserRow>`.
Each handler applies its SQL statements as one update of that map.

Modules:
- `Common`: `Option`.
- `Validation`: `str.isdigit`, `str.upper` and `str.replace` on ASCII, the
  normalisers, and Python `int()` / `str()` on user ids.
- `Chunking`: the reply split.
- `Ledger`: the row type, the table transitions as functions, the gate, the
  counts, and the table's scan order.
- `Lookup`: the decision a lookup handler takes before any network call.
- `Status`: `/premium_status`.
- `Bot`: the `OSINTBot` class, which holds the table and the saved broadcast
  text, and whose methods are the handlers.

The code has no credits, no referral table, no refunds and no "awaiting
input" mode. Its schema is main.py:43-62, and none of these are modelled.
Where a description of the system departs from the code, the model follows
`main.py`:
- Lookups check the stored `premium_status` flag, never the expiry against
  the clock. A user whose expiry has passed keeps access until the sweep
  clears the flag (`Ledger.StaleFlagUntilSweep`).
- The sweep clears both the flag and the expiry.

The model assumes that a full scan of the table (`SELECT user_id FROM users`)
returns rows by ascending `user_id`. SQL promises no order without `ORDER BY`,
but SQLite scans this table, which has no other index, by rowid, and an
`INTEGER PRIMARY KEY` is the rowid. The class keeps that order as `ids`, and the
sweep and broadcast loops walk it. Only `BroadcastAsWritten`'s "smallest id"
depends on the assumption; the other results do not depend on the order.

## Model

| member | source | states |
|---|---|---|
| `Validation.Remove` | main.py:461 | `s.replace(c, '')`: the result has no `c`, and every other character occurs exactly as often as in `s` |
| `Validation.RemoveAbsent` | main.py:461 | removing a character that does not occur returns the string unchanged |
| `Validation.Upper` | main.py:351 | `s.upper()` keeps the length and maps each position through the ASCII case map |
| `Validation.IsDigits` | main.py:244 | `str.isdigit()` on ASCII: false on the empty string, otherwise every character is `0`..`9` (definition) |
| `Validation.AadhaarAccepted` | main.py:244 | an Aadhaar argument is accepted iff it is all digits and exactly 12 long (definition) |
| `Validation.NormalizeVehicle` | main.py:351 | the normalised vehicle number has no spaces and no lower-case letters; every character other than a space occurs in it exactly as often as in the upper-cased argument; its length is the argument's length less its spaces |
| `Validation.UpperSpaces` | main.py:351 | upper-casing keeps the number of spaces, so the `< 5` check counts the argument's non-space characters |
| `Validation.VehicleAccepted` | main.py:354 | a normalised vehicle number is accepted iff it has at least 5 characters (definition; with `NormalizeVehicle`'s length, at least 5 non-space characters in the argument) |
| `Validation.NormalizePhone` | main.py:461 | the normalised phone number has no spaces and no `+`; every other character occurs in it exactly as often as in the argument; its length is the argument's length less its spaces and plus signs |
| `Validation.NormalizeVehicleIdempotent` | main.py:351 | normalising a vehicle number twice equals normalising it once |
| `Validation.NormalizePhoneIdempotent` | main.py:461 | normalising a phone number twice equals normalising it once |
| `Validation.PhoneAccepted` | main.py:464 | a normalised phone number is accepted iff it is all digits and at least 8 long (definition) |
| `Validation.PhoneAcceptedChars` | main.py:461-464 | a phone argument is accepted iff, apart from spaces and `+`, it holds only digits, and at least 8 remain |
| `Validation.ParseInt` | main.py:545 | `int(arg)`: a result exists only for a non-empty token, and an unsigned token gives a non-negative id; None is the ValueError |
| `Validation.NatToString` | main.py:555 | `str(n)` of a natural number is a non-empty string of digits |
| `Validation.ShowInt` | main.py:555 | `str(n)` is never empty |
| `Validation.ParseShowInt` | main.py:545-555 | round trip: `int(str(n)) == n` for every integer user id |
| `Validation.IsIntBody` | main.py:545 | the digits `int()` accepts after an optional sign: non-empty, digits with single underscores between digits, leading zeros allowed (definition) |
| `Validation.ParseDigits` | main.py:545 | a plain digit string reads as its decimal value |
| `Validation.ParseIntRejects` | main.py:545 | any character other than a digit or an underscore, except a leading sign, makes `int()` raise ValueError (the "Invalid user ID" reply) |
| `Validation.ParseIntRejectsUnderscore` | main.py:545 | an underscore that opens or closes the digits, or follows another underscore, makes `int()` raise ValueError |
| `Validation.ParseLeadingZero` | main.py:545 | leading zeros do not change the value: `int("0" + d) == int(d)` |
| `Validation.ParseSigned` | main.py:545 | an explicit sign is accepted: `int("+" + d) == int(d)` and `int("-" + d) == -int(d)` |
| `Validation.ParseUnderscoreExample` | main.py:545 | `int("1_000") == 1000` |
| `Validation.ParseSignAndZerosExample` | main.py:545 | `int("-42") == -42` and `int("007") == 7` |
| `Validation.ParseIntRejectsExamples` | main.py:545 | `"1__0"`, `"_1"`, `"1_"`, `"12a"`, `"+"` and the empty token all raise ValueError |
| `Chunking.Slices` | main.py:301 | the slices concatenate to the text; there are ceil(len/4096) of them; each is non-empty and at most 4096 long; all but the last are exactly 4096 long |
| `Chunking.SliceAt` | main.py:301 | slice k is `text[4096k : 4096k+4096]`, clamped at the end, as the comprehension over `range(0, len, 4096)` gives |
| `Chunking.Messages` | main.py:300-305 | the messages concatenate to the reply; each is at most 4096 long; all but the last are exactly 4096; a non-empty reply is ceil(len/4096) messages; a reply of at most 4096 is sent as one message |
| `Ledger.TableInvariant` | main.py:113-116 | every row has its trial used, and every row with the premium flag has an expiry: the insert sets both, the grant sets flag and expiry together, the sweep clears them together (definition; kept by `Admit`, `MarkJoined`, `Sweep` and `Grant`) |
| `Ledger.TrialRow` | main.py:113-116 | the inserted row: premium on, expiry `now + 86400`, trial used, not verified, the caller's names, joined at `now` |
| `Ledger.Admit` | main.py:107-118 | `/start` adds only the caller's key. An existing row is unchanged. A new row has premium on, expiry `now + 86400`, trial used, not verified, the caller's names and join date `now`. The table invariant is kept |
| `Ledger.NoRepeatTrial` | main.py:107-118 | a second `/start` of the same user, with any names and at any time, leaves the table as the first one did |
| `Ledger.IsJoinedStatus` | main.py:177 | the accepted membership statuses are exactly `member`, `administrator` and `creator` (definition) |
| `Ledger.MarkJoined` | main.py:177-183 | the update sets only `force_joined` of the caller's row, if it exists; no other row and no other field changes |
| `Ledger.IsExpired` | main.py:78 | a row is selected iff its flag is on and its expiry is present and before `now`; a NULL expiry never compares less (definition) |
| `Ledger.ExpiredIds` | main.py:77-81 | the sweep's selection is a subset of the table's keys |
| `Ledger.SelectExpired` | main.py:77-81 | the selected ids are exactly the rows with `premium_status` and `premium_expiry < now`; a NULL expiry never matches |
| `Ledger.Sweep` | main.py:77-87 | Every expired premium row gets the flag off and the expiry NULL, and every other row is unchanged. The verification flag, trial flag, names and join date of every row are kept. No expired premium row remains |
| `Ledger.Cleared` | main.py:85 | `SET premium_status = 0, premium_expiry = NULL` on one row, every other column kept (definition) |
| `Ledger.ClearEach` | main.py:83-87 | the per-id `UPDATE ... WHERE user_id = ?` applied for each id in turn; it keeps the table's keys |
| `Ledger.ClearEachAt` | main.py:83-87 | after the per-id updates, a row is cleared exactly when its id was one of those updated, and is otherwise untouched; ids that are not rows change nothing |
| `Ledger.ClearEachIsSweep` | main.py:77-87 | updating every id the expiry query can return, in any order, is the sweep |
| `Ledger.SelectThenClear` | main.py:77-87 | over a full scan, the expiry query returns exactly the expired ids, and updating each of them in turn is the sweep |
| `Ledger.SweepIdempotent` | main.py:77-87 | a second sweep with the same `now` changes nothing |
| `Ledger.Grant` | main.py:546-553 | an existing target gets premium on with expiry `now + 2592000`, keeping its other flags, its names and its join date; other rows are unchanged; a missing target leaves the table as it was |
| `Ledger.JoinedIsPermanent` | main.py:179-181 | no table operation (start, verify, sweep, grant) turns `force_joined` back off |
| `Ledger.Authorize` | main.py:214-234 | The gate allows a user iff the row exists, is verified and has the premium flag on. "Not verified" means the row is missing or unverified. "Expired" means verified without the flag. The expiry time is not consulted |
| `Ledger.StaleFlagUntilSweep` | main.py:222-234 | a verified user past expiry is still allowed until the sweep runs, and refused as expired after it |
| `Ledger.AllowedAfterSweepIsCurrent` | main.py:73-87 | straight after a sweep, every allowed user's expiry is present and not in the past |
| `Ledger.PremiumIds` | main.py:636-637 | the premium users are a subset of the users |
| `Ledger.VerifiedIds` | main.py:639-640 | the verified users are a subset of the users |
| `Ledger.SweepCounts` | main.py:633-640 | a sweep keeps the total and the verified users, and lowers the premium count by exactly the number of expired rows |
| `Ledger.AdmitCounts` | main.py:114-117 | a first contact adds one user and one premium user, and no verified user |
| `Ledger.InsertKey` | main.py:45 | inserting a key keeps the scan order ascending and adds exactly that key |
| `Ledger.ScanCounts` | main.py:597-613 | counting deliveries along a full scan gives the number of users delivered to and the number not, and the two add up to the number of rows |
| `Lookup.Query` | main.py:241 | the query each command builds from its first argument: the Aadhaar argument as given (main.py:241), the vehicle one upper-cased without spaces (main.py:351), the phone one without spaces and `+` (main.py:461) (definition) |
| `Lookup.Decide` | main.py:214-254 | the request is made iff the row exists, is verified, has the premium flag and the first argument normalises to an accepted query, and then with that query; the not-verified rejection covers every unverified caller, the expired one every verified caller without the flag, the missing-argument one an allowed caller with no arguments |
| `Lookup.FetchedQueryShape` | main.py:244-254 | an Aadhaar query sent out is 12 digits; a vehicle query is at least 5 characters, with no spaces or lower case; a phone query is at least 8 digits |
| `Lookup.VerificationBeforePremium` | main.py:214-234 | an unverified caller whose premium is also off gets the not-verified rejection, for every command and argument |
| `Lookup.GateIgnoresArguments` | main.py:214-240 | while the gate refuses, the reply does not depend on the arguments |
| `Lookup.QueryStable` | main.py:351-354 | re-normalising a query gives the same query |
| `Status.TruncDiv` | main.py:671-672 | `int(a / b)` for b > 0: the quotient truncates toward zero, with the remainder in `[0, b)` for a ≥ 0 and in `(-b, 0]` for a < 0 |
| `Status.RemainingOf` | main.py:670-677 | Days and hours are shown iff at least 86400 s are left; then days ≥ 1, hours in 0..23, and the seconds lie within that hour. Otherwise hours alone are shown: the truncated count, which is zero or negative once the expiry has passed |
| `Status.RowOf` | main.py:657-663 | the caller's row as `SELECT ... WHERE user_id = ?` and `fetchone()` return it, `None` when there is none (definition) |
| `Status.StatusOf` | main.py:657-697 | No row gives "use /start first". An active row (flag and expiry) gives ACTIVE with its expiry and `RemainingOf(expiry - now)` as the time left. Any other row with the trial used gives EXPIRED, and a row without it INACTIVE |
| `Status.NeverInactive` | main.py:685-697 | on a table the handlers produced, INACTIVE is never shown |
| `Status.StaleRowShownActive` | main.py:669-677 | a row past expiry that the sweep has not cleared is shown ACTIVE with zero or fewer hours |
| `Status.FreshTrialShowsTwentyThreeHours` | main.py:670-677 | at any time up to an hour after the trial grant, strictly later than it, the time left shows "23 hours": less than a day remains, so no day count is printed |
| `Status.StatusAsWritten` | main.py:669-670 | as written, the handler raises for exactly the active rows and otherwise replies as `StatusOf` |
| `Status.StatusAsWrittenFailsOnTrial` | main.py:669-670 | a user who asks within the hour after `/start` (strictly later) gets no reply from the written handler, where the intended reply is ACTIVE with 23 hours left and the stored expiry |
| `Bot.OSINTBot.constructor` | main.py:37-62 | a fresh database: no users, no saved broadcast text |
| `Bot.OSINTBot.Start` | main.py:101-163 | the table becomes `Admit(old table, ...)`; the reply says whether the user was new, and the join buttons are shown unless the row is verified, so always for a new user |
| `Bot.OSINTBot.VerifyJoin` | main.py:165-208 | status member/administrator/creator: "verified" and `MarkJoined`; any other status: "join first", table unchanged; a failed membership query: the error reply, table unchanged |
| `Bot.OSINTBot.LookupCommand` | main.py:210-247 | the lookup handler's decision is `Decide` on the current table, and it modifies nothing |
| `Bot.OSINTBot.PremiumStatus` | main.py:653-699 | the intended handler (the written one raises for active rows, see Findings): the reply is `StatusOf` the caller's row and never INACTIVE; nothing is modified |
| `Bot.JoinWords` | main.py:587 | `' '.join(args)`, word by word (definition; its properties are in `JoinWordsShape`) |
| `Bot.JoinWordsShape` | main.py:587 | the joined text is empty for no words; otherwise it starts with the first word and ends with the last, a space follows the first word when there are several, and it is at least one character per separator long |
| `Bot.JoinWordsLength` | main.py:587 | the joined text is as long as all the words together plus one separator between each pair |
| `Bot.JoinWordsAt` | main.py:587 | every word appears, in order, at the offset given by the earlier words and their separators, followed by a single space unless it is the last; with the length, this fixes every character of `' '.join` |
| `Bot.ClearRows` | main.py:83-87 | the update loop of the sweep leaves the table that updating each listed id in turn gives |
| `Bot.SendAll` | main.py:605-613 | one send attempt per id in scan order: the successes are the ids delivered to, and successes plus failures are the number of ids |
| `Bot.OSINTBot.CheckPremiumExpiry` | main.py:73-99 | the table becomes `Sweep(old table, now)`, and the users notified are exactly the expired ones |
| `Bot.OSINTBot.PremiumCommand` | main.py:532-573 | A non-operator gets the admin-only rejection. Otherwise: no argument gives the usage text, a non-integer "invalid user id", and an id outside SQLite's 64-bit range the generic error. An existing target is granted (`Grant`), a missing one gets "user not found". Only a grant changes the table |
| `Bot.OSINTBot.Broadcast` | main.py:575-622 | A non-operator gets the same rejection and nothing changes; with no words, the usage text. Otherwise the joined text replaces the saved one, and the report gives the users delivered to and the users not, which add up to the number of users. The table is unchanged |
| `Bot.OSINTBot.BroadcastAsWritten` | main.py:605-616 | as written, the text is saved but only the user with the smallest id gets a send attempt: one success or one failure in all, and then the handler aborts |
| `Bot.OSINTBot.Stats` | main.py:624-651 | a non-operator gets the same rejection; the operator gets the total, premium and verified counts, each count at most the total; nothing is modified |

## Left out

- Chat transport: replies, edits, keyboards, deleting the "fetching" message, and the `Application` wiring and `run` (main.py:713-736). Replies are returned as values. The channel membership status is an input, and so is the set of users a broadcast reaches.
- Notices sent to users by the sweep and by `/premium`: best-effort sends whose failure is swallowed. They change no state.
- If a reply fails after `verify_join` has stored the flag, the user sees "Error verifying join" even though the row was updated. Not modelled, because it is a transport failure.
- The HTTP lookups and their response formatting (main.py:252-318, 362-428, 472-530). No outcome of the external call changes any state, so the model stops at the decision to make the call.
- SQLite, commits, logging and dotenv are plumbing. A pre-existing `users.db` is not modelled: the object starts from empty tables.
- The APScheduler timer and the interleaving of the sweep with handlers. The sweep is a method called with `now`.
- Floating point: `total_seconds()` is whole seconds, and `int(x / 3600)` is integer division truncating toward zero.
- `str.isdigit`, `str.upper` and `int()` are restricted to ASCII. Unicode digits and non-ASCII case mappings are not modelled: for example, `'ß'.upper()` is `'SS'` and changes the length.
- `int()` also strips surrounding whitespace. Command arguments are whitespace-free tokens, so this is not modelled.
- The 4096 limit counts characters as Python's `len` does, one per code point. The platform counts UTF-16 units.
- `/help` (`handle_message`) is a fixed text.
- `Validation.Remove`: its contract gives the result's character counts, not the order of the kept characters. The body keeps that order.
- A `/premium_status` in the same instant as the trial grant exists only in the model. The source's clock has microseconds, so some time has always passed and the reply shows 23 hours. On the model's whole-second clock, zero elapsed time gives "1 days 0 hours".
- `Validation.NormalizeVehicle`: like `Remove`, its contract gives the kept characters' counts, not their order.
- `Validation.NormalizePhone`: like `Remove`, its contract gives the kept characters' counts, not their order.

## Findings

| source | as written | input that shows it | evidently intended | confidence | as-written member | corrected member |
|---|---|---|---|---|---|---|
| main.py:616 | `asyncio.sleep` is called but `asyncio` is never imported, so the loop raises `NameError` right after the first send | any operator `/broadcast hello` with two or more users: only the smallest id gets a send attempt, and no report is sent (postcondition of `BroadcastAsWritten`) | every user gets a send attempt, and the report's success and fail counts add up to the number of users | high; not executed | `Bot.OSINTBot.BroadcastAsWritten` | `Bot.OSINTBot.Broadcast` |
| main.py:669-670 | the connection is opened without `detect_types`, so `premium_expiry` comes back as text, and `expiry - datetime.now()` raises `TypeError` | `/start` then `/premium_status` within the hour: no reply (`StatusAsWrittenFailsOnTrial`) | ACTIVE, with 23 hours left | medium; not executed | `Status.StatusAsWritten` | `Status.StatusOf` |
