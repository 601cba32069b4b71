/**
 Making room on a full server: the idle sessions past the timeout are sorted by idle
 time and disconnected from the front until the player count is below the threshold.
 The library's sort is not stable, so every law is about any descending arrangement.
 */
module Kicks {
  import opened Wrappers
  import opened Sequences

  /** Nanoseconds. */
  type Instant = int
  type Duration = int

  /** An idle session: its place in the pass, and the idle time sampled for it. */
  datatype Candidate = Candidate(session: nat, idle: Duration)

  /** `fullness` is the share of the capacity from which the server counts as full. */
  datatype KickRule = KickRule(timeout: Duration, fullness: real)

  /** What the status provider says; the real player counts of a foreign server. */
  datatype Status = Status(playerCount: int, maxPlayers: int)

  /** Go's conversion of a float64 to int: the fraction is dropped. */
  function Truncated(r: real): int {
    if r >= 0.0 then r.Floor else -(-r).Floor
  }

  /** The fullness gate: `playerCount / maxPlayers` has reached the configured share. */
  predicate Full(rule: KickRule, status: Option<Status>) {
    && status.Some?
    && status.value.maxPlayers > 0
    && !(status.value.playerCount as real / status.value.maxPlayers as real < rule.fullness)
  }

  /** The player count that is kept. */
  function KeptCount(rule: KickRule, status: Status): int {
    Truncated(status.maxPlayers as real * rule.fullness)
  }

  function PastTimeout(rule: KickRule): Candidate -> bool {
    (c: Candidate) => c.idle >= rule.timeout
  }

  function Eligible(rule: KickRule, cands: seq<Candidate>): seq<Candidate> {
    Filter(cands, PastTimeout(rule))
  }

  ghost predicate Descending(s: seq<Candidate>) {
    forall i, j :: 0 <= i < j < |s| ==> s[i].idle >= s[j].idle
  }

  /** `order` is what some sort by falling idle time may make of `s`. */
  ghost predicate Arranges(order: seq<Candidate>, s: seq<Candidate>) {
    multiset(order) == multiset(s) && Descending(order)
  }

  /** How many sessions have to go so that fewer than the kept count remain, if that many are eligible. */
  function Excess(rule: KickRule, status: Status, eligible: nat): (n: nat)
    ensures n <= eligible
  {
    var room := status.playerCount - KeptCount(rule, status) + 1;
    if room <= 0 then 0 else if room < eligible then room else eligible
  }

  /** At least the configured share of the places is taken. */
  ghost predicate ShareTaken(rule: KickRule, status: Option<Status>) {
    status.Some? && status.value.maxPlayers > 0
    && status.value.playerCount as real >= rule.fullness * status.value.maxPlayers as real
  }

  lemma FullIffShareTaken(rule: KickRule, status: Option<Status>)
    ensures Full(rule, status) <==> ShareTaken(rule, status)
  {
    if status.Some? && status.value.maxPlayers > 0 {
      var p, m, f := status.value.playerCount as real, status.value.maxPlayers as real, rule.fullness;
      assert p == p / m * m;
      if p / m < f {
        assert (f - p / m) * m > 0.0;
      } else {
        assert (p / m - f) * m >= 0.0;
      }
    }
  }

  /** `n` is `r` without its fraction: the last integer on the way from zero to `r`. */
  predicate CutOff(r: real, n: int) {
    if r >= 0.0 then n as real <= r < n as real + 1.0 else n as real - 1.0 < r <= n as real
  }

  /** Who may be kicked: everybody sampled past the timeout, as often as sampled. */
  lemma ArrangedArePastTimeout(rule: KickRule, cands: seq<Candidate>, order: seq<Candidate>, c: Candidate)
    requires Arranges(order, Eligible(rule, cands))
    ensures multiset(order)[c] == if c.idle >= rule.timeout then multiset(cands)[c] else 0
  {
    FilterMultiplicity(cands, PastTimeout(rule), c);
  }

  /**
   How many a pass kicks, on the counts alone. Place `m` of the arrangement goes exactly when the
   share is taken and, `m` sessions having gone, the count is not below the share cut to `k`.
   */
  lemma KickedOnFields(rule: KickRule, status: Status, order: seq<Candidate>, k: int, m: nat)
    requires CutOff(status.maxPlayers as real * rule.fullness, k)
    ensures var kicked := KickedOf(rule, Some(status), order);
            && (m < |kicked| <==> ShareTaken(rule, Some(status)) && m < |order| && status.playerCount - m >= k)
            && (m < |kicked| ==> kicked[m] == order[m])
  {
    FullIffShareTaken(rule, Some(status));
    assert KeptCount(rule, status) == k;
    hide Full, ShareTaken, KeptCount, CutOff;
  }

  /** The sessions a pass kicks: none unless the server is full. */
  function KickedOf(rule: KickRule, status: Option<Status>, order: seq<Candidate>): seq<Candidate> {
    if Full(rule, status) then order[..Excess(rule, status.value, |order|)] else []
  }

  // ---------------------------------------------------------------------------
  // Who goes and who stays
  // ---------------------------------------------------------------------------

  lemma TruncationFloors(r: real, n: int)
    requires n as real >= r
    ensures n >= Truncated(r)
  {
  }

  /** On a full server the kept count is at most the player count, whatever share is configured. */
  lemma FullLeavesRoom(rule: KickRule, status: Status)
    requires Full(rule, Some(status))
    ensures status.playerCount >= KeptCount(rule, status)
  {
    var p, m, f := status.playerCount as real, status.maxPlayers as real, rule.fullness;
    assert p / m * m >= f * m;
    assert p >= m * f;
    TruncationFloors(m * f, status.playerCount);
  }

  /** With anybody eligible on a full server, at least one session goes; it never empties more than needed. */
  lemma FullServerKicks(rule: KickRule, status: Status, order: seq<Candidate>)
    requires Full(rule, Some(status))
    ensures var n := Excess(rule, status, |order|);
            && (n > 0 <==> order != [])
            && n <= |order|
            && (n < |order| ==> status.playerCount - n == KeptCount(rule, status) - 1)
            && (n > 0 ==> status.playerCount - (n - 1) >= KeptCount(rule, status))
  {
    FullLeavesRoom(rule, status);
    hide Full, KeptCount;
  }

  /** Everybody who goes was past the timeout and idle at least as long as every eligible session that stays. */
  lemma LongestIdleGoFirst(rule: KickRule, status: Status, cands: seq<Candidate>, order: seq<Candidate>, gone: Candidate, spared: Candidate)
    requires Arranges(order, Eligible(rule, cands))
    requires gone in order[..Excess(rule, status, |order|)]
    ensures gone in cands && gone.idle >= rule.timeout
    ensures spared in order[Excess(rule, status, |order|)..] ==> gone.idle >= spared.idle
    ensures spared in cands && spared.idle >= rule.timeout && spared.idle > gone.idle ==> spared in order[..Excess(rule, status, |order|)]
  {
    hide Excess, Eligible;
    var n := Excess(rule, status, |order|);
    assert order == order[..n] + order[n..];
    assert gone in multiset(order);
    FilterMembers(cands, PastTimeout(rule), gone);
    FilterMembers(cands, PastTimeout(rule), spared);
    EligibleIsFilter(rule, cands);
    assert spared in Eligible(rule, cands) ==> spared in multiset(order);
  }

  lemma EligibleIsFilter(rule: KickRule, cands: seq<Candidate>)
    ensures Eligible(rule, cands) == Filter(cands, PastTimeout(rule))
  {
  }

  function Idles(s: seq<Candidate>): (r: seq<Duration>)
    ensures |r| == |s|
  {
    seq(|s|, i requires 0 <= i < |s| => s[i].idle)
  }

  /** Two arrangements of the same sessions agree on the idle time at every place. */
  lemma {:induction false} ArrangementsAgree(a: seq<Candidate>, b: seq<Candidate>)
    requires multiset(a) == multiset(b) && Descending(a) && Descending(b)
    ensures Idles(a) == Idles(b)
  {
    if a == [] {
      assert |multiset(b)| == 0;
    } else {
      SameLength(a, b);
      var left, right := SplitAround(a, b);
      assert a[0] in multiset(b) && b[0] in multiset(a);
      HeadIsLongest(a, b[0]);
      HeadIsLongest(b, a[0]);
      RemovedStaysDescending(left, a[0], right);
      ArrangementsAgree(a[1..], left + right);
      LongestMovesFront(left, a[0], right);
      assert forall i :: 1 <= i < |a| ==> Idles(a)[i] == Idles(a[1..])[i - 1];
    }
  }

  lemma SameLength(a: seq<Candidate>, b: seq<Candidate>)
    requires multiset(a) == multiset(b)
    ensures |a| == |b|
  {
    assert |multiset(a)| == |a| && |multiset(b)| == |b|;
  }

  lemma HeadIsLongest(s: seq<Candidate>, c: Candidate)
    requires s != [] && Descending(s) && c in s
    ensures s[0].idle >= c.idle
  {
  }

  lemma RemovedStaysDescending(left: seq<Candidate>, c: Candidate, right: seq<Candidate>)
    requires Descending(left + [c] + right)
    ensures Descending(left + right)
  {
    var s := left + [c] + right;
    forall i, j | 0 <= i < j < |left + right| ensures (left + right)[i].idle >= (left + right)[j].idle {
      var p := if i < |left| then i else i + 1;
      var q := if j < |left| then j else j + 1;
      assert s[p] == (left + right)[i] && s[q] == (left + right)[j];
    }
  }

  /** An element as long idle as the head may stand at the head: no place changes its idle time. */
  lemma LongestMovesFront(left: seq<Candidate>, c: Candidate, right: seq<Candidate>)
    requires Descending(left + [c] + right) && c.idle >= (left + [c] + right)[0].idle
    ensures Idles(left + [c] + right) == [c.idle] + Idles(left + right)
  {
    var s := left + [c] + right;
    assert s[|left|] == c;
    forall i | 0 <= i < |s| ensures Idles(s)[i] == ([c.idle] + Idles(left + right))[i] {
      if 0 < i <= |left| {
        assert s[0].idle >= s[i - 1].idle >= s[i].idle >= s[|left|].idle;
        assert (left + right)[i - 1] == s[i - 1];
      }
    }
  }

  /** Ties aside the sort does not matter: the same idle times are kicked whatever the arrangement. */
  lemma KicksDoNotDependOnTheSort(rule: KickRule, status: Status, cands: seq<Candidate>, a: seq<Candidate>, b: seq<Candidate>)
    requires Arranges(a, Eligible(rule, cands)) && Arranges(b, Eligible(rule, cands))
    ensures |a| == |b|
    ensures Idles(a[..Excess(rule, status, |a|)]) == Idles(b[..Excess(rule, status, |b|)])
  {
    hide Excess, Eligible;
    SameLength(a, b);
    ArrangementsAgree(a, b);
    var n := Excess(rule, status, |a|);
    assert Idles(a[..n]) == Idles(a)[..n] && Idles(b[..n]) == Idles(b)[..n];
  }

  /** One session is kicked at most once: the number of kicks is the number of sessions gone. */
  lemma KickedOnce(rule: KickRule, cands: seq<Candidate>, order: seq<Candidate>, i: nat, j: nat)
    requires forall n :: 0 <= n < |cands| ==> cands[n].session == n
    requires Arranges(order, Eligible(rule, cands)) && i < j < |order|
    ensures order[i].session != order[j].session
  {
    var c, d := order[i], order[j];
    assert c in multiset(order) && d in multiset(order);
    FilterMembers(cands, PastTimeout(rule), c);
    FilterMembers(cands, PastTimeout(rule), d);
    if c.session == d.session {
      assert c == cands[c.session] == d;
      FilterMultiplicity(cands, PastTimeout(rule), c);
      DistinctMultiplicity(cands, c);
      TwiceCounted(order, i, j);
    }
  }
}
