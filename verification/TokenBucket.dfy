/**
 The per-session token bucket. It keeps one number, yet over every sequence of calls it
 refuses exactly the calls that some window of its history forbids. Times may go back;
 what counts is the latest time seen so far.
 */
module TokenBuckets {

  datatype RateLimit = RateLimit(rate: real, burst: int)

  /** One past call: the clock it was decided at, and the decision. */
  datatype Call = Call(time: real, admitted: bool)

  /** The bucket's fields after `created`, and the calls it has decided since. */
  datatype History = History(limit: RateLimit, created: real, calls: seq<Call>)

  function AdmittedIn(calls: seq<Call>): nat {
    if calls == [] then 0
    else AdmittedIn(calls[..|calls| - 1]) + (if calls[|calls| - 1].admitted then 1 else 0)
  }

  /** The clock after the calls so far: the creation time or the latest call's. */
  function Clock(h: History): real {
    if h.calls == [] then h.created else h.calls[|h.calls| - 1].time
  }

  /** Windows are numbered: 0 starts at creation, n at the n-th call. */
  function WindowStart(h: History, n: nat): real
    requires n <= |h.calls|
  {
    if n == 0 then h.created else h.calls[n - 1].time
  }

  function FirstCall(n: nat): nat {
    if n == 0 then 0 else n - 1
  }

  /** Calls admitted in window `n` so far. */
  function AdmittedSince(h: History, n: nat): nat
    requires n <= |h.calls|
  {
    AdmittedIn(h.calls[FirstCall(n)..])
  }

  /** Tokens earned in a stretch of time. */
  function Gain(rate: real, elapsed: real): real {
    elapsed * rate
  }

  lemma GainAdds(rate: real, a: real, b: real)
    ensures Gain(rate, a + b) == Gain(rate, a) + Gain(rate, b)
    ensures Gain(rate, 0.0) == 0.0
  {
  }

  lemma GainRises(rate: real, a: real, b: real)
    requires rate >= 0.0 && a <= b
    ensures Gain(rate, a) <= Gain(rate, b)
  {
    GainAdds(rate, a, b - a);
    assert (b - a) * rate >= 0.0;
  }

  /** What window `n` still allows at time `now`. */
  function Headroom(h: History, n: nat, now: real): real
    requires n <= |h.calls|
  {
    h.limit.burst as real + Gain(h.limit.rate, now - WindowStart(h, n)) - AdmittedSince(h, n) as real
  }

  /**
   Admitting one more call at `now` would overrun a window: one starting right now, or an earlier
   one, whose calls would exceed the burst plus the rate times the window's length.
   */
  ghost predicate Overruns(h: History, now: real) {
    || h.limit.burst < 1
    || exists n :: 0 <= n <= |h.calls|
                   && AdmittedSince(h, n) as real + 1.0 > h.limit.burst as real + h.limit.rate * (now - WindowStart(h, n))
  }

  lemma OverrunsByHeadroom(h: History, now: real)
    ensures Overruns(h, now) <==> h.limit.burst as real < 1.0 || exists n :: 0 <= n <= |h.calls| && Headroom(h, n, now) < 1.0
  {
    hide AdmittedSince, WindowStart;
    if n :| 0 <= n <= |h.calls| && Headroom(h, n, now) < 1.0 {
      assert AdmittedSince(h, n) as real + 1.0 > h.limit.burst as real + h.limit.rate * (now - WindowStart(h, n));
    }
    if n :| 0 <= n <= |h.calls|
            && AdmittedSince(h, n) as real + 1.0 > h.limit.burst as real + h.limit.rate * (now - WindowStart(h, n)) {
      assert Headroom(h, n, now) < 1.0;
    }
  }

  predicate WellFormed(h: History) {
    && h.limit.rate >= 0.0 && h.limit.burst >= 0
    && (forall i :: 0 <= i < |h.calls| ==> h.created <= h.calls[i].time)
    && (forall i, j :: 0 <= i <= j < |h.calls| ==> h.calls[i].time <= h.calls[j].time)
  }

  /** `tokens` is the least headroom over all windows at time `now`. */
  ghost predicate Tightest(h: History, tokens: real, now: real) {
    && (forall n :: 0 <= n <= |h.calls| ==> tokens <= Headroom(h, n, now))
    && (exists n :: 0 <= n <= |h.calls| && tokens == Headroom(h, n, now))
  }

  function Later(h: History, now: real): real {
    if now > Clock(h) then now else Clock(h)
  }

  /** The clock never goes back: a call is decided at the latest of all times seen. */
  lemma LaterIsLatest(h: History, now: real)
    requires WellFormed(h)
    ensures var times := set i | 0 <= i < |h.calls| :: h.calls[i].time;
            && Later(h, now) in times + {now, h.created}
            && forall t :: t in times + {now, h.created} ==> t <= Later(h, now)
  {
    if h.calls != [] {
      assert h.calls[|h.calls| - 1].time in (set i | 0 <= i < |h.calls| :: h.calls[i].time);
    }
  }

  /** The count of admitted calls is the number of places that hold one. */
  lemma {:induction false} AdmittedAreCounted(calls: seq<Call>)
    ensures AdmittedIn(calls) == |set i | 0 <= i < |calls| && calls[i].admitted|
  {
    if calls != [] {
      var n := |calls| - 1;
      AdmittedAreCounted(calls[..n]);
      var earlier := set i | 0 <= i < n && calls[i].admitted;
      assert earlier == set i | 0 <= i < n && calls[..n][i].admitted;
      assert (set i | 0 <= i < |calls| && calls[i].admitted) == if calls[n].admitted then earlier + {n} else earlier;
    }
  }

  function Extend(h: History, time: real, admitted: bool): History {
    h.(calls := h.calls + [Call(time, admitted)])
  }

  class TokenBucket {
    const rate: real
    const burst: real
    var tokens: real
    var last: real
    ghost var history: History

    /** The single number kept is the tightest window of the whole history. */
    ghost predicate Valid()
      reads this
    {
      && WellFormed(history)
      && rate == history.limit.rate && burst == history.limit.burst as real
      && last == Clock(history)
      && 0.0 <= tokens <= burst
      && Tightest(history, tokens, last)
      && Decided(history)
    }

    constructor (limit: RateLimit, now: real)
      requires limit.rate >= 0.0 && limit.burst >= 0
      ensures Valid() && history == History(limit, now, [])
    {
      rate, burst := limit.rate, limit.burst as real;
      tokens, last := limit.burst as real, now;
      history := History(limit, now, []);
      new;
      assert Headroom(history, 0, now) == burst;
    }

    /** Refuses a call exactly when admitting it would overrun some window. */
    method Allow(now: real) returns (admitted: bool)
      requires Valid()
      modifies this
      ensures Valid()
      ensures admitted == !Overruns(old(history), Later(old(history), now))
      ensures history == Extend(old(history), Later(old(history), now), admitted)
    {
      hide Tightest, Refilled, Overruns, Decided;
      ghost var before, time := history, Later(history, now);
      RefillTightens(before, tokens, now);
      var elapsed := now - last;
      tokens := Refill(tokens, burst, rate, elapsed);
      if elapsed > 0.0 {
        last := now;
      }
      DecideByTightest(before, tokens, time);
      admitted := !(tokens < 1.0);
      ExtendTightest(before, tokens, time, admitted);
      AllowKeepsDecided(before, now);
      history := Extend(before, time, admitted);
      if !admitted {
        return false;
      }
      tokens := tokens - 1.0;
    }
  }

  /** `min(burst, tokens + elapsed * rate)`, when the clock has moved forward. */
  function Refill(tokens: real, burst: real, rate: real, elapsed: real): real {
    if elapsed <= 0.0 then tokens
    else if burst <= tokens + Gain(rate, elapsed) then burst
    else tokens + Gain(rate, elapsed)
  }

  /** The tightest window once time has moved on: refilled, but never above the burst. */
  ghost predicate Refilled(h: History, tokens: real, now: real) {
    && tokens <= h.limit.burst as real
    && (forall n :: 0 <= n <= |h.calls| ==> tokens <= Headroom(h, n, now))
    && (tokens == h.limit.burst as real || exists n :: 0 <= n <= |h.calls| && tokens == Headroom(h, n, now))
  }

  lemma HeadroomMoves(h: History, n: nat, from: real, to: real)
    requires n <= |h.calls|
    ensures Headroom(h, n, to) == Headroom(h, n, from) + Gain(h.limit.rate, to - from)
  {
    GainAdds(h.limit.rate, from - WindowStart(h, n), to - from);
    assert from - WindowStart(h, n) + (to - from) == to - WindowStart(h, n);
    hide Gain;
  }

  /** Refilling gives the tightest window at the later time, and never takes tokens away. */
  lemma RefillTightens(h: History, tokens: real, now: real)
    requires WellFormed(h) && Tightest(h, tokens, Clock(h)) && tokens <= h.limit.burst as real
    ensures Refilled(h, Refill(tokens, h.limit.burst as real, h.limit.rate, now - Clock(h)), Later(h, now))
    ensures tokens <= Refill(tokens, h.limit.burst as real, h.limit.rate, now - Clock(h)) <= h.limit.burst as real
  {
    hide Headroom, Gain;
    if now > Clock(h) {
      GainAdds(h.limit.rate, 0.0, 0.0);
      GainRises(h.limit.rate, 0.0, now - Clock(h));
      forall n | 0 <= n <= |h.calls|
        ensures Headroom(h, n, now) == Headroom(h, n, Clock(h)) + Gain(h.limit.rate, now - Clock(h))
      {
        HeadroomMoves(h, n, Clock(h), now);
      }
    }
  }

  lemma DecideByTightest(h: History, tokens: real, time: real)
    requires Refilled(h, tokens, time)
    ensures tokens < 1.0 <==> Overruns(h, time)
  {
    hide Overruns, Headroom;
    OverrunsByHeadroom(h, time);
  }

  /** After the decision the remaining tokens are again the tightest window, the new one included. */
  lemma ExtendTightest(h: History, tokens: real, time: real, admitted: bool)
    requires WellFormed(h) && time >= Clock(h) && Refilled(h, tokens, time)
    ensures WellFormed(Extend(h, time, admitted)) && Clock(Extend(h, time, admitted)) == time
    ensures Tightest(Extend(h, time, admitted), tokens - (if admitted then 1.0 else 0.0), time)
  {
    hide Headroom, Gain;
    var after := Extend(h, time, admitted);
    var taken := if admitted then 1.0 else 0.0;
    forall n | 0 <= n <= |h.calls| ensures Headroom(after, n, time) == Headroom(h, n, time) - taken {
      OldWindow(h, time, admitted, n);
    }
    NewWindow(h, time, admitted);
    if tokens != h.limit.burst as real {
      var n :| 0 <= n <= |h.calls| && tokens == Headroom(h, n, time);
      assert tokens - taken == Headroom(after, n, time);
    } else {
      assert tokens - taken == Headroom(after, |after.calls|, time);
    }
  }

  lemma OldWindow(h: History, time: real, admitted: bool, n: nat)
    requires n <= |h.calls|
    ensures Headroom(Extend(h, time, admitted), n, time) == Headroom(h, n, time) - (if admitted then 1.0 else 0.0)
  {
    var first := FirstCall(n);
    var after := Extend(h, time, admitted);
    var window := after.calls[first..];
    assert window[..|window| - 1] == h.calls[first..];
    assert window[|window| - 1] == Call(time, admitted);
  }

  lemma NewWindow(h: History, time: real, admitted: bool)
    ensures Headroom(Extend(h, time, admitted), |h.calls| + 1, time) ==
            h.limit.burst as real - (if admitted then 1.0 else 0.0)
  {
    var after := Extend(h, time, admitted);
    assert after.calls[|h.calls|..] == [Call(time, admitted)];
    assert [Call(time, admitted)][..0] == [];
    assert AdmittedIn([Call(time, admitted)]) == if admitted then 1 else 0;
    GainAdds(h.limit.rate, 0.0, 0.0);
  }

  // ---------------------------------------------------------------------------
  // Whole runs
  // ---------------------------------------------------------------------------

  /** Every decision of the history was the one the windows prescribe. */
  ghost predicate Decided(h: History) {
    forall i :: 0 <= i < |h.calls| ==>
      (h.calls[i].admitted <==> !Overruns(h.(calls := h.calls[..i]), h.calls[i].time))
  }

  /** What `Allow` does to a history keeps every decision right. */
  lemma AllowKeepsDecided(h: History, now: real)
    requires Decided(h)
    ensures Decided(Extend(h, Later(h, now), !Overruns(h, Later(h, now))))
  {
    hide Overruns;
    var after := Extend(h, Later(h, now), !Overruns(h, Later(h, now)));
    forall i | 0 <= i < |after.calls|
      ensures after.calls[i].admitted <==> !Overruns(after.(calls := after.calls[..i]), after.calls[i].time)
    {
      if i < |h.calls| {
        assert after.(calls := after.calls[..i]) == h.(calls := h.calls[..i]);
      } else {
        assert after.(calls := after.calls[..i]) == h;
      }
    }
  }

  /**
   In a run of such decisions no window is ever overrun: between the start of window `n`
   and any later call, at most burst + rate * (elapsed time) calls were admitted.
   */
  lemma NoWindowIsOverrun(h: History, n: nat, m: nat)
    requires WellFormed(h) && Decided(h) && n <= m <= |h.calls|
    ensures AdmittedIn(h.calls[FirstCall(n)..m]) as real
            <= h.limit.burst as real + h.limit.rate * (WindowStart(h, m) - WindowStart(h, n))
  {
    hide WindowStart, Decided, WellFormed, Overruns, AdmittedIn;
    GainCoversWindow(h, n, m);
  }

  lemma {:induction false} GainCoversWindow(h: History, n: nat, m: nat)
    requires WellFormed(h) && Decided(h) && n <= m <= |h.calls|
    ensures AdmittedIn(h.calls[FirstCall(n)..m]) as real
            <= h.limit.burst as real + Gain(h.limit.rate, WindowStart(h, m) - WindowStart(h, n))
  {
    hide WindowStart, Decided, WellFormed, Overruns, Gain;
    if n == m {
      OpeningWindow(h, n);
    } else {
      GainCoversWindow(h, n, m - 1);
      LongerWindow(h, n, m);
    }
  }

  lemma OpeningWindow(h: History, n: nat)
    requires WellFormed(h) && Decided(h) && n <= |h.calls|
    ensures AdmittedIn(h.calls[FirstCall(n)..n]) as real
            <= h.limit.burst as real + Gain(h.limit.rate, WindowStart(h, n) - WindowStart(h, n))
  {
    hide Decided;
    GainAdds(h.limit.rate, 0.0, 0.0);
    if n > 0 {
      var window := h.calls[n - 1..n];
      assert window[..0] == [] && window == [h.calls[n - 1]];
      SingleCall(h, n - 1);
    }
  }

  lemma LongerWindow(h: History, n: nat, m: nat)
    requires WellFormed(h) && Decided(h) && n < m <= |h.calls|
    requires AdmittedIn(h.calls[FirstCall(n)..m - 1]) as real
             <= h.limit.burst as real + Gain(h.limit.rate, WindowStart(h, m - 1) - WindowStart(h, n))
    ensures AdmittedIn(h.calls[FirstCall(n)..m]) as real
            <= h.limit.burst as real + Gain(h.limit.rate, WindowStart(h, m) - WindowStart(h, n))
  {
    hide WindowStart, Decided, Gain, Overruns;
    var window := h.calls[FirstCall(n)..m];
    assert window[..|window| - 1] == h.calls[FirstCall(n)..m - 1];
    if h.calls[m - 1].admitted {
      AdmissionLeavesRoom(h, n, m);
    } else {
      TimesRise(h, m);
      GainRises(h.limit.rate, WindowStart(h, m - 1) - WindowStart(h, n), WindowStart(h, m) - WindowStart(h, n));
    }
  }

  lemma TimesRise(h: History, m: nat)
    requires WellFormed(h) && 0 < m <= |h.calls|
    ensures WindowStart(h, m - 1) <= WindowStart(h, m)
  {
  }

  /** An admitted call found at least one token left in every window. */
  lemma AdmissionLeavesRoom(h: History, n: nat, m: nat)
    requires Decided(h) && n < m <= |h.calls| && h.calls[m - 1].admitted
    ensures AdmittedIn(h.calls[FirstCall(n)..m - 1]) as real + 1.0
            <= h.limit.burst as real + Gain(h.limit.rate, WindowStart(h, m) - WindowStart(h, n))
  {
    hide Gain;
    var before := h.(calls := h.calls[..m - 1]);
    assert !Overruns(before, h.calls[m - 1].time);
    OverrunsByHeadroom(before, h.calls[m - 1].time);
    assert Headroom(before, n, h.calls[m - 1].time) >= 1.0;
    assert before.calls[FirstCall(n)..] == h.calls[FirstCall(n)..m - 1];
    assert WindowStart(before, n) == WindowStart(h, n);
  }

  lemma SingleCall(h: History, i: nat)
    requires i < |h.calls| && Decided(h) && h.limit.burst >= 0
    ensures h.calls[i].admitted ==> h.limit.burst >= 1
  {
    assert h.calls[i].admitted <==> !Overruns(h.(calls := h.calls[..i]), h.calls[i].time);
  }
}
