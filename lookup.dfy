/**
 * The part of `/aadhaar`, `/vehicle` and `/phone` that runs before the external
 * request: the access gate, the argument check and the normalised query.
 * Everything here only reads the table.
 */
module Lookup {
  import opened Ledger
  import opened Validation

  datatype LookupKind = Aadhaar | Vehicle | Phone

  datatype Decision =
    | RejectNotVerified      // "Please verify joining our channel first"
    | RejectExpired          // "Your premium access has expired"
    | RejectMissingArgument  // "Please provide ... number"
    | RejectInvalidArgument  // "Invalid ... number"
    | Fetch(query: string)   // the external request is made with this query

  /** The query built from the first argument. */
  function Query(kind: LookupKind, arg: string): string
  {
    match kind
    case Aadhaar => arg
    case Vehicle => NormalizeVehicle(arg)
    case Phone => NormalizePhone(arg)
  }

  predicate Accepts(kind: LookupKind, q: string)
  {
    match kind
    case Aadhaar => AadhaarAccepted(q)
    case Vehicle => VehicleAccepted(q)
    case Phone => PhoneAccepted(q)
  }

  /** The handler's decision: the gate first, then the argument. */
  function Decide(t: Table, uid: int, kind: LookupKind, args: seq<string>): (d: Decision)
    ensures d.Fetch? <==>
      uid in t && t[uid].forceJoined && t[uid].premiumStatus
      && |args| > 0 && Accepts(kind, Query(kind, args[0]))
    ensures d.Fetch? ==> d.query == Query(kind, args[0])
    ensures d == RejectNotVerified <==> uid !in t || !t[uid].forceJoined
    ensures d == RejectExpired <==> uid in t && t[uid].forceJoined && !t[uid].premiumStatus
    ensures d == RejectMissingArgument <==> Authorize(t, uid) == Allowed && |args| == 0
  {
    match Authorize(t, uid)
    case NotVerified => RejectNotVerified
    case PremiumExpired => RejectExpired
    case Allowed =>
      if |args| == 0 then RejectMissingArgument
      else if !Accepts(kind, Query(kind, args[0])) then RejectInvalidArgument
      else Fetch(Query(kind, args[0]))
  }

  /** What reaches each external service: twelve digits, an upper-case plate of at
      least five characters without spaces, or at least eight digits. */
  lemma FetchedQueryShape(t: Table, uid: int, kind: LookupKind, args: seq<string>)
    requires Decide(t, uid, kind, args).Fetch?
    ensures var q := Decide(t, uid, kind, args).query;
      match kind
      case Aadhaar => |q| == AADHAAR_LENGTH && forall i :: 0 <= i < |q| ==> IsDigit(q[i])
      case Vehicle => |q| >= MIN_VEHICLE_LENGTH && forall i :: 0 <= i < |q| ==> q[i] != ' ' && !('a' <= q[i] <= 'z')
      case Phone => |q| >= MIN_PHONE_LENGTH && forall i :: 0 <= i < |q| ==> IsDigit(q[i])
  {
  }

  /** The verification check comes first: an unverified user is told to verify even
      when the premium flag is off too, whatever the command and its argument. */
  lemma VerificationBeforePremium(t: Table, uid: int, k1: LookupKind, k2: LookupKind,
                                  a1: seq<string>, a2: seq<string>)
    requires uid in t && !t[uid].forceJoined && !t[uid].premiumStatus
    ensures Decide(t, uid, k1, a1) == Decide(t, uid, k2, a2) == RejectNotVerified
  {
  }

  /** The argument is ignored until the gate passes: the same rejection comes back
      whatever was typed. */
  lemma GateIgnoresArguments(t: Table, uid: int, kind: LookupKind, a1: seq<string>, a2: seq<string>)
    requires Authorize(t, uid) != Allowed
    ensures Decide(t, uid, kind, a1) == Decide(t, uid, kind, a2)
  {
  }

  /** Re-normalising the query of a fetched lookup gives the same query. */
  lemma QueryStable(kind: LookupKind, arg: string)
    ensures Query(kind, Query(kind, arg)) == Query(kind, arg)
  {
    match kind
    case Aadhaar =>
    case Vehicle => NormalizeVehicleIdempotent(arg);
    case Phone => NormalizePhoneIdempotent(arg);
  }
}
