/**
 Rate limiting of one session: a token bucket per traffic category, and counters that are
 handed out in periodic records. What the records and the live counters add up to is the
 history the buckets decided.
 */
module Traffic {
  import opened TokenBuckets

  const CATEGORIES := 6

  /** The zero bucket of the last category never refills and never admits. */
  const NO_LIMIT := RateLimit(0.0, 0)

  /** One period's counts, per category. */
  datatype Record = Record(observed: seq<nat>, exceeded: seq<nat>, enforced: seq<nat>, malformed: seq<nat>)

  /** Elementwise sum. */
  function Plus(a: seq<nat>, b: seq<nat>): (r: seq<nat>)
    requires |a| == |b|
    ensures |r| == |a| && forall i :: 0 <= i < |r| ==> r[i] == a[i] + b[i]
  {
    seq(|a|, i requires 0 <= i < |a| => a[i] + b[i])
  }

  function OneMore(s: seq<nat>, i: nat, counted: bool): (r: seq<nat>)
    requires i < |s|
    ensures |r| == |s|
  {
    if counted then s[i := s[i] + 1] else s
  }

  const ZEROS := seq(CATEGORIES, _ => 0 as nat)

  /** The first `i` counters have been read and reset; the others stand. */
  ghost predicate Drained(now: seq<nat>, before: seq<nat>, taken: seq<nat>, i: nat) {
    && |now| == |before| && i <= |before| && taken == before[..i]
    && forall k :: 0 <= k < |now| ==> now[k] == if k < i then 0 else before[k]
  }

  lemma NothingDrained(s: seq<nat>)
    ensures Drained(s, s, [], 0)
  {
  }

  lemma AllDrained(now: seq<nat>, before: seq<nat>, taken: seq<nat>)
    requires Drained(now, before, taken, CATEGORIES) && |before| == CATEGORIES
    ensures now == ZEROS && taken == before
  {
  }

  /** Nothing is left to count once everything has been reported. */
  lemma PlusNothing(counts: seq<nat>)
    requires |counts| == CATEGORIES
    ensures Plus(counts, ZEROS) == counts
  {
    assert forall i :: 0 <= i < CATEGORIES ==> Plus(counts, ZEROS)[i] == counts[i];
  }

  /** Reads one counter and resets it. */
  method Swap(counters: array<nat>, i: nat, taken: seq<nat>, ghost before: seq<nat>) returns (longer: seq<nat>)
    requires i < counters.Length && Drained(counters[..], before, taken, i)
    modifies counters
    ensures Drained(counters[..], before, longer, i + 1)
  {
    longer := taken + [counters[i]];
    counters[i] := 0;
  }

  class TrafficMetrics {
    const observed: array<nat>
    const exceeded: array<nat>
    const enforced: array<nat>
    const malformed: array<nat>
    /** Everything the records handed out so far have reported. */
    ghost var reported: Record

    ghost const Repr: set<object>

    ghost predicate Valid()
      reads this, Repr
    {
      && Repr == {this, observed, exceeded, enforced, malformed}
      && observed.Length == exceeded.Length == enforced.Length == malformed.Length == CATEGORIES
      && observed != exceeded && observed != enforced && observed != malformed
      && exceeded != enforced && exceeded != malformed && enforced != malformed
      && |reported.observed| == |reported.exceeded| == |reported.enforced| == |reported.malformed| == CATEGORIES
    }

    /** All that was ever counted: what was reported and what is still held. */
    ghost function Total(): (r: Record)
      requires Valid()
      reads this, Repr
      ensures |r.observed| == |r.exceeded| == |r.enforced| == |r.malformed| == CATEGORIES
    {
      Record(Plus(reported.observed, observed[..]), Plus(reported.exceeded, exceeded[..]),
             Plus(reported.enforced, enforced[..]), Plus(reported.malformed, malformed[..]))
    }

    constructor ()
      ensures Valid() && fresh(Repr) && Total() == Record(ZEROS, ZEROS, ZEROS, ZEROS)
    {
      var o, x := new nat[CATEGORIES](_ => 0), new nat[CATEGORIES](_ => 0);
      var e, m := new nat[CATEGORIES](_ => 0), new nat[CATEGORIES](_ => 0);
      observed, exceeded, enforced, malformed := o, x, e, m;
      reported := Record(ZEROS, ZEROS, ZEROS, ZEROS);
      Repr := {this, o, x, e, m};
    }

    /** Counts one packet; categories outside the table are not counted. */
    method Observe(category: int, wasExceeded: bool, wasEnforced: bool)
      requires Valid()
      modifies observed, exceeded, enforced
      ensures Valid()
      ensures Total() == if 0 <= category < CATEGORIES then Counted(old(Total()), category, wasExceeded, wasEnforced) else old(Total())
    {
      if category < 0 || category >= CATEGORIES {
        return;
      }
      ghost var before := Total();
      observed[category] := observed[category] + 1;
      if wasExceeded {
        exceeded[category] := exceeded[category] + 1;
      }
      if wasEnforced {
        enforced[category] := enforced[category] + 1;
      }
      assert Total() == Counted(before, category, wasExceeded, wasEnforced);
    }

    /** Hands out the period's counts and starts the next period at zero: no count is lost or reported twice. */
    method WriteDelta() returns (record: Record)
      requires Valid()
      modifies this, observed, exceeded, enforced, malformed
      ensures Valid()
      ensures record == old(Record(observed[..], exceeded[..], enforced[..], malformed[..]))
      ensures observed[..] == exceeded[..] == enforced[..] == malformed[..] == ZEROS
      ensures Total() == old(Total())
      ensures reported == Record(Plus(old(reported.observed), record.observed), Plus(old(reported.exceeded), record.exceeded),
                                 Plus(old(reported.enforced), record.enforced), Plus(old(reported.malformed), record.malformed))
    {
      hide Drained, Plus;
      ghost var before := Record(observed[..], exceeded[..], enforced[..], malformed[..]);
      var o, x, e, m: seq<nat> := [], [], [], [];
      NothingDrained(before.observed);
      NothingDrained(before.exceeded);
      NothingDrained(before.enforced);
      NothingDrained(before.malformed);
      for i := 0 to CATEGORIES
        modifies observed, exceeded, enforced, malformed
        invariant Drained(observed[..], before.observed, o, i)
        invariant Drained(exceeded[..], before.exceeded, x, i)
        invariant Drained(enforced[..], before.enforced, e, i)
        invariant Drained(malformed[..], before.malformed, m, i)
      {
        o := Swap(observed, i, o, before.observed);
        x := Swap(exceeded, i, x, before.exceeded);
        e := Swap(enforced, i, e, before.enforced);
        m := Swap(malformed, i, m, before.malformed);
      }
      AllDrained(observed[..], before.observed, o);
      AllDrained(exceeded[..], before.exceeded, x);
      AllDrained(enforced[..], before.enforced, e);
      AllDrained(malformed[..], before.malformed, m);
      record := Record(o, x, e, m);
      reported := Record(Plus(reported.observed, o), Plus(reported.exceeded, x), Plus(reported.enforced, e), Plus(reported.malformed, m));
      PlusNothing(reported.observed);
      PlusNothing(reported.exceeded);
      PlusNothing(reported.enforced);
      PlusNothing(reported.malformed);
    }
  }

  function Counted(total: Record, category: nat, wasExceeded: bool, wasEnforced: bool): Record
    requires category < |total.observed| && category < |total.exceeded| && category < |total.enforced|
  {
    total.(observed := OneMore(total.observed, category, true),
           exceeded := OneMore(total.exceeded, category, wasExceeded),
           enforced := OneMore(total.enforced, category, wasEnforced))
  }

  function RefusedIn(calls: seq<Call>): nat {
    |calls| - AdmittedAtMost(calls)
  }

  function AdmittedAtMost(calls: seq<Call>): (n: nat)
    ensures n == AdmittedIn(calls) && n <= |calls|
  {
    if calls == [] then 0
    else AdmittedAtMost(calls[..|calls| - 1]) + (if calls[|calls| - 1].admitted then 1 else 0)
  }

  lemma RefusedNext(calls: seq<Call>, call: Call)
    ensures RefusedIn(calls + [call]) == RefusedIn(calls) + if call.admitted then 0 else 1
  {
    assert (calls + [call])[..|calls|] == calls;
  }

  /** The counts of one category are those of its bucket's history. */
  predicate TallyOf(total: Record, c: nat, enforce: bool, calls: seq<Call>)
    requires c < |total.observed| && c < |total.exceeded| && c < |total.enforced|
  {
    && total.observed[c] == |calls|
    && total.exceeded[c] == RefusedIn(calls)
    && total.enforced[c] == if enforce then RefusedIn(calls) else 0
  }

  lemma NothingTallied(c: nat, enforce: bool)
    requires c < CATEGORIES
    ensures TallyOf(Record(ZEROS, ZEROS, ZEROS, ZEROS), c, enforce, [])
  {
  }

  lemma TallyNext(total: Record, enforce: bool, category: nat, calls: seq<Call>, call: Call)
    requires |total.observed| == |total.exceeded| == |total.enforced| == CATEGORIES && category < CATEGORIES
    requires TallyOf(total, category, enforce, calls)
    ensures var after := Counted(total, category, !call.admitted, !call.admitted && enforce);
            && TallyOf(after, category, enforce, calls + [call])
            && forall c, other | 0 <= c < CATEGORIES && c != category && TallyOf(total, c, enforce, other) :: TallyOf(after, c, enforce, other)
  {
    RefusedNext(calls, call);
    hide RefusedIn;
  }

  class TrafficState {
    const enforce: bool
    const buckets: seq<TokenBucket>
    const session: TrafficMetrics
    const aggregate: TrafficMetrics?

    /** The session's counters, reported or not, are what its buckets decided. */
    ghost predicate Tallied()
      requires session.Valid() && |buckets| == CATEGORIES
      reads this, buckets, session, session.Repr
    {
      forall c :: 0 <= c < CATEGORIES ==> TallyOf(session.Total(), c, enforce, buckets[c].history.calls)
    }

    ghost predicate Valid()
      reads this, buckets, session, session.Repr
      reads if aggregate == null then {} else {aggregate} + aggregate.Repr
    {
      && |buckets| == CATEGORIES
      && (forall c, d :: 0 <= c < d < CATEGORIES ==> buckets[c] != buckets[d])
      && (forall c :: 0 <= c < CATEGORIES ==> buckets[c].Valid())
      && session.Valid()
      && (aggregate != null ==> aggregate.Valid() && aggregate.Repr !! session.Repr)
      && Tallied()
    }

    static method NewBuckets(limits: seq<RateLimit>, now: real) returns (made: seq<TokenBucket>)
      requires forall i :: 0 <= i < |limits| ==> limits[i].rate >= 0.0 && limits[i].burst >= 0
      ensures |made| == |limits|
      ensures forall c :: 0 <= c < |made| ==> fresh(made[c]) && made[c].Valid() && made[c].history == History(limits[c], now, [])
      ensures forall c, d :: 0 <= c < d < |made| ==> made[c] != made[d]
    {
      hide TokenBucket.Valid;
      made := [];
      for i := 0 to |limits|
        invariant |made| == i
        invariant forall c :: 0 <= c < i ==> fresh(made[c]) && made[c].Valid() && made[c].history == History(limits[c], now, [])
        invariant forall c, d :: 0 <= c < d < i ==> made[c] != made[d]
      {
        var bucket := new TokenBucket(limits[i], now);
        made := made + [bucket];
      }
    }

    constructor (enforce: bool, limits: seq<RateLimit>, now: real, aggregate: TrafficMetrics?)
      requires |limits| == CATEGORIES - 1
      requires forall i :: 0 <= i < |limits| ==> limits[i].rate >= 0.0 && limits[i].burst >= 0
      requires aggregate != null ==> aggregate.Valid()
      ensures Valid() && this.enforce == enforce && this.aggregate == aggregate
      ensures forall c :: 0 <= c < CATEGORIES ==>
                buckets[c].history == if c < |limits| then History(limits[c], now, []) else History(NO_LIMIT, 0.0, [])
    {
      hide Tightest, Decided, WellFormed, TallyOf, TrafficMetrics.Total, TrafficMetrics.Valid, TokenBucket.Valid;
      var made := NewBuckets(limits, now);
      var unlimited := new TokenBucket(NO_LIMIT, 0.0);
      var metrics := new TrafficMetrics();
      this.enforce, this.buckets, this.session, this.aggregate := enforce, made + [unlimited], metrics, aggregate;
      new;
      forall c | 0 <= c < CATEGORIES ensures TallyOf(session.Total(), c, enforce, buckets[c].history.calls) {
        NothingTallied(c, enforce);
      }
    }

    /** Asks the category's bucket and counts the answer in the session's own counters. */
    method Decide(category: nat, now: real) returns (admitted: bool)
      requires Valid() && category < CATEGORIES
      modifies buckets[category], session.Repr
      ensures Valid()
      ensures var before := old(buckets[category].history);
              && admitted == !Overruns(before, Later(before, now))
              && buckets[category].history == Extend(before, Later(before, now), admitted)
    {
      hide Overruns, Later, RefusedIn, TallyOf, Counted, TrafficMetrics.Total, TokenBucket.Valid, Extend;
      ghost var total, before := session.Total(), buckets[category].history;
      admitted := buckets[category].Allow(now);
      session.Observe(category, !admitted, !admitted && enforce);
      TallyNext(total, enforce, category, before.calls, Call(Later(before, now), admitted));
      ExtendCalls(before, Later(before, now), admitted);
    }

    /**
     Decides one packet. Only an enforcing session drops packets, and then exactly those
     that would overrun a window of their category; every packet is counted either way.
     */
    method Allow(category: nat, now: real) returns (forwarded: bool)
      requires Valid() && category < CATEGORIES
      modifies buckets[category], session.Repr, if aggregate == null then {} else aggregate.Repr
      ensures Valid()
      ensures var before := old(buckets[category].history);
              && forwarded == !(enforce && Overruns(before, Later(before, now)))
              && buckets[category].history == Extend(before, Later(before, now), !Overruns(before, Later(before, now)))
      ensures aggregate != null ==>
                var exceeded := Overruns(old(buckets[category].history), Later(old(buckets[category].history), now));
                aggregate.Total() == Counted(old(aggregate.Total()), category, exceeded, exceeded && enforce)
    {
      hide Overruns, Later, Counted, TrafficMetrics.Total, TokenBucket.Valid, TallyOf, Extend;
      var admitted := Decide(category, now);
      var exceeded := !admitted;
      var enforced := exceeded && enforce;
      if aggregate != null {
        aggregate.Observe(category, exceeded, enforced);
      }
      return !enforced;
    }
  }

  lemma ExtendCalls(h: History, time: real, admitted: bool)
    ensures Extend(h, time, admitted).calls == h.calls + [Call(time, admitted)]
  {
  }
}
