/**
 Idle players: the movement tracker of a session, and the evaluator that warns idle
 sessions and disconnects the longest idle ones of a full server.
 */
module Afk {
  import opened Wrappers
  import opened Sequences
  import opened Kicks

  /** The three messages an idle player may get, softest first. */
  datatype Warning = Approaching | Marked | Final

  /** Idle times from which each warning is due, and the kick rule. */
  datatype Timer = Timer(warnApproaching: Duration, markAFK: Duration, finalWarning: Duration, rule: KickRule) {
    function Threshold(w: Warning): Duration {
      match w
      case Approaching => warnApproaching
      case Marked => markAFK
      case Final => finalWarning
    }
  }

  datatype Vec3 = Vec3(x: real, y: real, z: real)
  datatype Pose = Pose(position: Vec3, yaw: real, pitch: real)

  /** The movement bookkeeping of one session. */
  datatype AfkState = AfkState(lastMoveTime: Option<Instant>, pose: Pose, warned: set<Warning>) {

    /** How long the session has been idle; without any movement on record, not at all. */
    function Idle(now: Instant): Duration {
      if lastMoveTime.None? then 0 else now - lastMoveTime.value
    }
  }

  function Touched(a: AfkState, pose: Pose, near: (Pose, Pose) -> bool, now: Instant): AfkState {
    if near(a.pose, pose) then a else AfkState(Some(now), pose, {})
  }

  /** A warning is due when the sampled idle time reaches its threshold and its flag is not set. */
  predicate Due(a: AfkState, timer: Timer, w: Warning, idle: Duration) {
    idle >= timer.Threshold(w) && w !in a.warned
  }

  const SOFT := [Approaching, Marked]
  const ALL := [Approaching, Marked, Final]

  /** The warnings this pass may give out: the final one only on a full server. */
  function Given(timer: Timer, status: Option<Status>): seq<Warning> {
    if Full(timer.rule, status) then ALL else SOFT
  }

  /** The flags after giving out warnings: each one whose threshold was reached is set. */
  function Flagged(a: AfkState, timer: Timer, idle: Duration, warnings: seq<Warning>): AfkState {
    a.(warned := a.warned + set w | w in warnings && idle >= timer.Threshold(w))
  }

  /** The messages sent on the way: those that are due, each once. */
  function Messages(a: AfkState, timer: Timer, idle: Duration, warnings: seq<Warning>): seq<Warning> {
    Filter(warnings, w => Due(a, timer, w, idle))
  }

  lemma OneMessage(a: AfkState, timer: Timer, idle: Duration, w: Warning)
    ensures Messages(a, timer, idle, [w]) == if Due(a, timer, w, idle) then [w] else []
  {
    var due := w => Due(a, timer, w, idle);
    assert Filter([w], due) == if due(w) then [w] + Filter([w][1..], due) else Filter([w][1..], due);
    assert [w][1..] == [];
  }

  /** Giving out one list of warnings and then another is giving out both in order. */
  lemma PassesCompose(a: AfkState, timer: Timer, idle: Duration, first: seq<Warning>, second: seq<Warning>)
    requires forall w :: w in first ==> w !in second
    ensures Flagged(Flagged(a, timer, idle, first), timer, idle, second) == Flagged(a, timer, idle, first + second)
    ensures Messages(a, timer, idle, first) + Messages(Flagged(a, timer, idle, first), timer, idle, second)
            == Messages(a, timer, idle, first + second)
  {
    var b := Flagged(a, timer, idle, first);
    assert Flagged(b, timer, idle, second).warned == Flagged(a, timer, idle, first + second).warned;
    FilterSameOn(second, w => Due(b, timer, w, idle), w => Due(a, timer, w, idle));
    FilterConcat(first, second, w => Due(a, timer, w, idle));
  }

  /** A second pass on the same samples has nothing left to say and changes no flag. */
  lemma SecondPassIsSilent(a: AfkState, timer: Timer, idle: Duration, warnings: seq<Warning>)
    ensures Messages(Flagged(a, timer, idle, warnings), timer, idle, warnings) == []
    ensures Flagged(Flagged(a, timer, idle, warnings), timer, idle, warnings) == Flagged(a, timer, idle, warnings)
  {
    var b := Flagged(a, timer, idle, warnings);
    FilterSameOn(warnings, w => Due(b, timer, w, idle), w => false);
    NothingKept(warnings);
    assert Flagged(b, timer, idle, warnings).warned == b.warned;
  }

  lemma MessagesConcat(a: AfkState, timer: Timer, idle: Duration, first: seq<Warning>, second: seq<Warning>)
    ensures Messages(a, timer, idle, first + second) == Messages(a, timer, idle, first) + Messages(a, timer, idle, second)
  {
    FilterConcat(first, second, w => Due(a, timer, w, idle));
  }

  /** What a pass says to a session, on the thresholds themselves. */
  lemma MessagesOnFields(a: AfkState, timer: Timer, idle: Duration, status: Option<Status>)
    ensures Messages(a, timer, idle, Given(timer, status)) ==
              (if idle >= timer.warnApproaching && Approaching !in a.warned then [Approaching] else [])
              + (if idle >= timer.markAFK && Marked !in a.warned then [Marked] else [])
              + (if ShareTaken(timer.rule, status) && idle >= timer.finalWarning && Final !in a.warned then [Final] else [])
  {
    FullIffShareTaken(timer.rule, status);
    OneMessage(a, timer, idle, Approaching);
    OneMessage(a, timer, idle, Marked);
    OneMessage(a, timer, idle, Final);
    hide Full, ShareTaken, Messages;
    MessagesConcat(a, timer, idle, [Approaching], [Marked]);
    MessagesConcat(a, timer, idle, SOFT, [Final]);
    assert [Approaching] + [Marked] == SOFT && SOFT + [Final] == ALL;
  }

  /** Which flags a pass sets, on the thresholds themselves. */
  lemma FlagsOnFields(a: AfkState, timer: Timer, idle: Duration, status: Option<Status>)
    ensures Flagged(a, timer, idle, Given(timer, status)) ==
              a.(warned := a.warned + (if idle >= timer.warnApproaching then {Approaching} else {})
                                    + (if idle >= timer.markAFK then {Marked} else {})
                                    + (if ShareTaken(timer.rule, status) && idle >= timer.finalWarning then {Final} else {}))
  {
    FullIffShareTaken(timer.rule, status);
    hide Full, ShareTaken;
    var given := Given(timer, status);
    assert Approaching in given && Marked in given && (Final in given <==> ShareTaken(timer.rule, status));
    assert Flagged(a, timer, idle, given).warned ==
           a.warned + (if idle >= timer.warnApproaching then {Approaching} else {})
                    + (if idle >= timer.markAFK then {Marked} else {})
                    + (if ShareTaken(timer.rule, status) && idle >= timer.finalWarning then {Final} else {});
  }

  lemma {:induction false} NothingKept(warnings: seq<Warning>)
    ensures Filter(warnings, w => false) == []
  {
    if warnings != [] {
      NothingKept(warnings[1..]);
    }
  }

  class Session {
    var afk: AfkState
    /** The messages sent to the client, oldest first. */
    var sent: seq<Warning>
    var disconnected: bool

    constructor (pose: Pose, now: Instant)
      ensures afk == AfkState(Some(now), pose, {}) && sent == [] && !disconnected
    {
      afk, sent, disconnected := AfkState(Some(now), pose, {}), [], false;
    }

    /** Real movement restarts the idle streak and takes every warning back. */
    method TouchMovement(pose: Pose, near: (Pose, Pose) -> bool, now: Instant) returns (moved: bool)
      modifies `afk
      ensures afk == Touched(old(afk), pose, near, now)
      ensures moved ==> afk.Idle(now) == 0 && afk.warned == {}
      ensures moved <==> !near(old(afk.pose), pose)
      ensures if moved then afk.pose == pose && afk.lastMoveTime == Some(now) else afk == old(afk)
    {
      moved := !near(afk.pose, pose);
      if !moved {
        return;
      }
      afk := afk.(lastMoveTime := Some(now), pose := pose);
      afk := afk.(warned := {});
    }

    /** Sends one warning if it is due, and sets its flag. */
    method Warn(timer: Timer, w: Warning, idle: Duration)
      modifies `afk, `sent
      ensures afk == Flagged(old(afk), timer, idle, [w])
      ensures sent == old(sent) + Messages(old(afk), timer, idle, [w])
    {
      ghost var before := afk;
      if idle >= timer.Threshold(w) && w !in afk.warned {
        sent := sent + [w];
        afk := afk.(warned := afk.warned + {w});
      }
      assert afk.warned == Flagged(before, timer, idle, [w]).warned;
      OneMessage(before, timer, idle, w);
    }
  }

  // ---------------------------------------------------------------------------
  // One pass over the sessions
  // ---------------------------------------------------------------------------

  ghost predicate AllDistinct(sessions: seq<Session>) {
    forall i, j :: 0 <= i < j < |sessions| ==> sessions[i] != sessions[j]
  }

  /** The pass's samples: one candidate per session, with the time since its last movement on record. */
  ghost function Samples(sessions: seq<Session>, clock: seq<Instant>): seq<Candidate>
    requires |clock| == |sessions|
    reads sessions
  {
    seq(|sessions|, i requires 0 <= i < |sessions| reads sessions =>
      Candidate(i, if sessions[i].afk.lastMoveTime.None? then 0 else clock[i] - sessions[i].afk.lastMoveTime.value))
  }

  ghost predicate InOrder(sessions: seq<Session>, cands: seq<Candidate>) {
    |cands| == |sessions| && forall i :: 0 <= i < |cands| ==> cands[i].session == i
  }

  /** What a pass over the sampled sessions does to the session at place `i`. */
  ghost predicate Warned(before: AfkState, sent: seq<Warning>, after: Session, timer: Timer, c: Candidate, warnings: seq<Warning>)
    reads after
  {
    after.afk == Flagged(before, timer, c.idle, warnings) && after.sent == sent + Messages(before, timer, c.idle, warnings)
  }

  /** The soft warnings, regardless of fullness. */
  method WarnAFKSessions(sessions: seq<Session>, cands: seq<Candidate>, timer: Timer)
    requires AllDistinct(sessions) && InOrder(sessions, cands)
    modifies sessions
    ensures forall i :: 0 <= i < |sessions| ==> sessions[i].disconnected == old(sessions[i].disconnected)
    ensures forall i :: 0 <= i < |sessions| ==>
              Warned(old(sessions[i].afk), old(sessions[i].sent), sessions[i], timer, cands[i], SOFT)
  {
    hide Flagged, Messages;
    for n := 0 to |cands|
      invariant forall i :: 0 <= i < |sessions| ==> sessions[i].disconnected == old(sessions[i].disconnected)
      invariant forall i :: n <= i < |sessions| ==>
                  sessions[i].afk == old(sessions[i].afk) && sessions[i].sent == old(sessions[i].sent)
      invariant forall i :: 0 <= i < n ==>
                  Warned(old(sessions[i].afk), old(sessions[i].sent), sessions[i], timer, cands[i], SOFT)
    {
      PassesCompose(sessions[n].afk, timer, cands[n].idle, [Approaching], [Marked]);
      assert [Approaching] + [Marked] == SOFT;
      sessions[n].Warn(timer, Approaching, cands[n].idle);
      sessions[n].Warn(timer, Marked, cands[n].idle);
    }
  }

  /** The final warning, on a full server only. */
  method WarnFinalAFKSessions(sessions: seq<Session>, cands: seq<Candidate>, timer: Timer)
    requires AllDistinct(sessions) && InOrder(sessions, cands)
    modifies sessions
    ensures forall i :: 0 <= i < |sessions| ==> sessions[i].disconnected == old(sessions[i].disconnected)
    ensures forall i :: 0 <= i < |sessions| ==>
              Warned(old(sessions[i].afk), old(sessions[i].sent), sessions[i], timer, cands[i], [Final])
  {
    hide Flagged, Messages;
    for n := 0 to |cands|
      invariant forall i :: 0 <= i < |sessions| ==> sessions[i].disconnected == old(sessions[i].disconnected)
      invariant forall i :: n <= i < |sessions| ==>
                  sessions[i].afk == old(sessions[i].afk) && sessions[i].sent == old(sessions[i].sent)
      invariant forall i :: 0 <= i < n ==>
                  Warned(old(sessions[i].afk), old(sessions[i].sent), sessions[i], timer, cands[i], [Final])
    {
      sessions[n].Warn(timer, Final, cands[n].idle);
    }
  }

  /** The kick loop: disconnects from the front of the arrangement while the count is not below the kept one. */
  method DisconnectIdle(sessions: seq<Session>, order: seq<Candidate>, rule: KickRule, status: Status) returns (kicked: seq<Candidate>)
    requires forall c :: c in order ==> c.session < |sessions|
    requires AllDistinct(sessions)
    modifies sessions
    ensures forall i :: 0 <= i < |sessions| ==>
              sessions[i].afk == old(sessions[i].afk) && sessions[i].sent == old(sessions[i].sent)
    ensures kicked == order[..Excess(rule, status, |order|)]
    ensures forall i :: 0 <= i < |sessions| ==>
              (sessions[i].disconnected <==> old(sessions[i].disconnected) || exists c :: c in kicked && c.session == i)
  {
    hide KeptCount;
    kicked := [];
    var threshold, remaining := KeptCount(rule, status), status.playerCount;
    for n := 0 to |order|
      invariant forall i :: 0 <= i < |sessions| ==>
                  sessions[i].afk == old(sessions[i].afk) && sessions[i].sent == old(sessions[i].sent)
      invariant kicked == order[..n]
      invariant remaining == status.playerCount - n
      invariant n <= Excess(rule, status, |order|)
      invariant forall i :: 0 <= i < |sessions| ==>
                  (sessions[i].disconnected <==> old(sessions[i].disconnected) || exists c :: c in kicked && c.session == i)
    {
      if remaining < threshold {
        return;
      }
      var c := order[n];
      sessions[c.session].disconnected := true;
      kicked := kicked + [c];
      remaining := remaining - 1;
      assert c in kicked;
    }
  }

  /** One pass of the evaluator; `sort` is the library's sort by falling idle time. */
  method EvaluateAFK(
    sessions: seq<Session>, clock: seq<Instant>, timer: Timer, status: Option<Status>,
    sort: seq<Candidate> -> seq<Candidate>)
    returns (kicked: seq<Candidate>)
    requires AllDistinct(sessions) && |clock| == |sessions|
    requires forall s :: Arranges(sort(s), s)
    modifies sessions
    ensures var cands := old(Samples(sessions, clock));
            && (forall i :: 0 <= i < |sessions| ==>
                  Warned(old(sessions[i].afk), old(sessions[i].sent), sessions[i], timer, cands[i], Given(timer, status)))
            && kicked == KickedOf(timer.rule, status, sort(Eligible(timer.rule, cands)))
            && (forall i :: 0 <= i < |sessions| ==>
                  (sessions[i].disconnected <==> old(sessions[i].disconnected) || exists c :: c in kicked && c.session == i))
  {
    hide Eligible, Excess, Flagged, Messages, Arranges;
    var cands: seq<Candidate> := [];
    for n := 0 to |sessions|
      invariant |cands| == n
      invariant forall i :: 0 <= i < n ==> cands[i] == Candidate(i, old(sessions[i].afk).Idle(clock[i]))
    {
      cands := cands + [Candidate(n, sessions[n].afk.Idle(clock[n]))];
    }
    assert cands == old(Samples(sessions, clock));
    WarnAFKSessions(sessions, cands, timer);
    kicked := [];
    if !Full(timer.rule, status) {
      return;
    }
    label Softly:
    WarnFinalAFKSessions(sessions, cands, timer);
    forall i | 0 <= i < |sessions|
      ensures Warned(old(sessions[i].afk), old(sessions[i].sent), sessions[i], timer, cands[i], ALL)
    {
      PassesCompose(old(sessions[i].afk), timer, cands[i].idle, SOFT, [Final]);
      assert SOFT + [Final] == ALL;
    }
    var eligible := Eligible(timer.rule, cands);
    var order := sort(eligible);
    ArrangedAreSessions(timer.rule, cands, order, |sessions|);
    kicked := DisconnectIdle(sessions, order, timer.rule, status.value);
  }

  lemma ArrangedAreSessions(rule: KickRule, cands: seq<Candidate>, order: seq<Candidate>, count: nat)
    requires Arranges(order, Eligible(rule, cands))
    requires forall c :: c in cands ==> c.session < count
    ensures forall c :: c in order ==> c.session < count
  {
    forall c | c in order ensures c.session < count {
      assert c in multiset(order);
      FilterMembers(cands, PastTimeout(rule), c);
    }
  }
}
