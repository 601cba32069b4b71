/** The claim counters of one server: fixed-size arrays bumped in place. */
module Metrics {

  const ACTIONS := 9
  const REASONS := 8

  /** Why a query could or could not be answered from the snapshot. */
  datatype QueryStatus =
    | Ready
    | Missing
    | Stale
    | Unsupported
    | UnknownDimension
    | Invalid
    | Overlap
    | RefreshFailed
  {
    function Code(): (c: nat)
      ensures c < REASONS
    {
      match this
      case Ready => 0
      case Missing => 1
      case Stale => 2
      case Unsupported => 3
      case UnknownDimension => 4
      case Invalid => 5
      case Overlap => 6
      case RefreshFailed => 7
    }
  }

  /** No two reasons share a counter. */
  lemma ReasonCodesDiffer(a: QueryStatus, b: QueryStatus)
    requires a.Code() == b.Code()
    ensures a == b
  {
  }

  /** `s` with one more at position `i`; unchanged when `i` is not a position. */
  function Bumped(s: seq<nat>, i: nat): (r: seq<nat>)
    ensures |r| == |s|
  {
    if i < |s| then s[i := s[i] + 1] else s
  }

  class Counters {
    const seen: array<nat>
    const forwarded: array<nat>
    const denied: array<nat>
    const reasons: array<nat>
    var candidates: nat
    var refreshAttempts: nat
    var refreshSuccess: nat
    var refreshFailure: nat

    ghost const Repr: set<object>

    ghost predicate Valid()
      reads this, Repr
    {
      && Repr == {this, seen, forwarded, denied, reasons}
      && seen.Length == forwarded.Length == denied.Length == ACTIONS
      && reasons.Length == REASONS
      && seen != forwarded && seen != denied && forwarded != denied
      && reasons != seen && reasons != forwarded && reasons != denied
    }

    /** The bookkeeping law: every action seen was either forwarded or denied. */
    ghost predicate Balanced()
      requires Valid()
      reads Repr
    {
      forall a :: 0 <= a < ACTIONS ==> seen[a] == forwarded[a] + denied[a]
    }

    constructor ()
      ensures Valid() && fresh(Repr) && Balanced()
      ensures candidates == refreshAttempts == refreshSuccess == refreshFailure == 0
    {
      var s, f := new nat[ACTIONS](_ => 0), new nat[ACTIONS](_ => 0);
      var d, r := new nat[ACTIONS](_ => 0), new nat[REASONS](_ => 0);
      seen, forwarded, denied, reasons := s, f, d, r;
      Repr := {this, s, f, d, r};
      candidates, refreshAttempts, refreshSuccess, refreshFailure := 0, 0, 0, 0;
    }

    /** Records one policy decision; codes past the table are not recorded. */
    method Action(code: nat, permitted: bool)
      requires Valid()
      modifies seen, forwarded, denied
      ensures seen[..] == Bumped(old(seen[..]), code)
      ensures forwarded[..] == if permitted then Bumped(old(forwarded[..]), code) else old(forwarded[..])
      ensures denied[..] == if permitted then old(denied[..]) else Bumped(old(denied[..]), code)
      ensures old(Balanced()) ==> Balanced()
    {
      if code >= ACTIONS {
        return;
      }
      seen[code] := seen[code] + 1;
      if permitted {
        forwarded[code] := forwarded[code] + 1;
      } else {
        denied[code] := denied[code] + 1;
      }
    }

    /** Records why a query failed open. */
    method Reason(reason: QueryStatus)
      requires Valid()
      modifies reasons
      ensures reasons[..] == Bumped(old(reasons[..]), reason.Code())
    {
      reasons[reason.Code()] := reasons[reason.Code()] + 1;
    }

    method Candidates(count: nat)
      modifies `candidates
      ensures candidates == old(candidates) + count
    {
      candidates := candidates + count;
    }
  }
}
