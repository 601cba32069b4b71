/**
 Idle warnings under interleaving. The evaluator samples idle times, reads a flag, sends
 a message and writes the flag in separate steps, while the packet handlers of the
 sessions report movement at any moment. Every theorem is about every finite interleaving.
 */
module AfkMachine {
  import opened Wrappers
  import opened Kicks
  import opened Afk

  type Id = nat
  type Near = (Pose, Pose) -> bool

  /** A session; `streak` numbers its idle streaks, one per movement. */
  datatype Player = Player(afk: AfkState, streak: nat)

  /** An idle time taken at the start of a pass, and the streak it was taken in. */
  datatype Sample = Sample(id: Id, idle: Duration, streak: nat)

  /** One warning to consider for one sampled session. */
  datatype Item = Item(sample: Sample, warning: Warning)

  datatype Stage = Soft | Last
  datatype Point = Reading | Sending | Marking

  datatype Evaluator =
    | Waiting
    | Sampling(samples: seq<Sample>)
    | Working(samples: seq<Sample>, stage: Stage, todo: seq<Item>, at: Point)

  /** A message sent: in which streak, how idle the player was then, and in which streak its flag was written. */
  datatype Message = Message(item: Item, streak: nat, idleThen: Duration, markedIn: Option<nat>)

  datatype State = State(now: Instant, players: map<Id, Player>, evaluator: Evaluator, log: seq<Message>)

  const INITIAL := State(0, map[], Waiting, [])

  datatype Event =
    | Join(newcomer: Id, pose: Pose)
    | Elapse(time: nat)
    | Touch(mover: Id, next: Pose)
    | Begin
    | TakeSample(id: Id)
    | WarnSoftly
    | Check
    | Send
    | Mark
    | EndStage(full: bool)

  function Softly(samples: seq<Sample>): seq<Item> {
    if samples == [] then [] else [Item(samples[0], Approaching), Item(samples[0], Marked)] + Softly(samples[1..])
  }

  function Finally(samples: seq<Sample>): seq<Item> {
    if samples == [] then [] else [Item(samples[0], Final)] + Finally(samples[1..])
  }

  /** The soft stage considers both soft warnings for every sample, sample by sample; the last stage the final one. */
  lemma {:induction false} StagesConsiderAll(samples: seq<Sample>, i: nat)
    ensures |Softly(samples)| == 2 * |samples| && |Finally(samples)| == |samples|
    ensures i < |samples| ==>
              && Softly(samples)[2 * i] == Item(samples[i], Approaching) && Softly(samples)[2 * i + 1] == Item(samples[i], Marked)
              && Finally(samples)[i] == Item(samples[i], Final)
  {
    if samples != [] {
      StagesConsiderAll(samples[1..], if i == 0 then 0 else i - 1);
    }
  }

  predicate At(s: State, at: Point) {
    s.evaluator.Working? && s.evaluator.at == at && s.evaluator.todo != [] && s.evaluator.todo[0].sample.id in s.players
  }

  predicate Enabled(s: State, e: Event) {
    match e
    case Join(id, _) => id !in s.players
    case Elapse(_) => true
    case Touch(id, _) => id in s.players
    case Begin => s.evaluator.Waiting?
    case TakeSample(id) => s.evaluator.Sampling? && id in s.players
    case WarnSoftly => s.evaluator.Sampling?
    case Check => At(s, Reading)
    case Send => At(s, Sending)
    case Mark => At(s, Marking)
    case EndStage(_) => s.evaluator.Working? && s.evaluator.at == Reading && s.evaluator.todo == []
  }

  /** One atomic step; `near` tells poses apart as the movement tracker does. */
  function Next(s: State, e: Event, timer: Timer, near: Near): State
    requires Enabled(s, e)
  {
    match e
    case Join(id, pose) => s.(players := s.players[id := Player(AfkState(Some(s.now), pose, {}), 0)])
    case Elapse(time) => s.(now := s.now + time)
    case Touch(id, pose) =>
      var p := s.players[id];
      s.(players := s.players[id := Player(Touched(p.afk, pose, near, s.now), if near(p.afk.pose, pose) then p.streak else p.streak + 1)])
    case Begin => s.(evaluator := Sampling([]))
    case TakeSample(id) =>
      s.(evaluator := Sampling(s.evaluator.samples + [Sample(id, s.players[id].afk.Idle(s.now), s.players[id].streak)]))
    case WarnSoftly => s.(evaluator := Working(s.evaluator.samples, Soft, Softly(s.evaluator.samples), Reading))
    case Check =>
      var item := s.evaluator.todo[0];
      if Due(s.players[item.sample.id].afk, timer, item.warning, item.sample.idle) then s.(evaluator := s.evaluator.(at := Sending))
      else s.(evaluator := s.evaluator.(todo := s.evaluator.todo[1..]))
    case Send =>
      var item := s.evaluator.todo[0];
      var p := s.players[item.sample.id];
      s.(evaluator := s.evaluator.(at := Marking), log := s.log + [Message(item, p.streak, p.afk.Idle(s.now), None)])
    case Mark =>
      var item := s.evaluator.todo[0];
      var p := s.players[item.sample.id];
      s.(evaluator := s.evaluator.(todo := s.evaluator.todo[1..], at := Reading),
         players := s.players[item.sample.id := p.(afk := p.afk.(warned := p.afk.warned + {item.warning}))],
         log := if s.log == [] then [] else s.log[|s.log| - 1 := s.log[|s.log| - 1].(markedIn := Some(p.streak))])
    case EndStage(full) =>
      if full && s.evaluator.stage == Soft then s.(evaluator := s.evaluator.(stage := Last, todo := Finally(s.evaluator.samples)))
      else s.(evaluator := Waiting)
  }

  ghost predicate IsRun(trace: seq<State>, events: seq<Event>, timer: Timer, near: Near) {
    && |trace| == |events| + 1
    && trace[0] == INITIAL
    && forall i :: 0 <= i < |events| ==> Enabled(trace[i], events[i]) && trace[i + 1] == Next(trace[i], events[i], timer, near)
  }

  // ---------------------------------------------------------------------------
  // The invariant
  // ---------------------------------------------------------------------------

  predicate About(m: Message, id: Id, w: Warning) {
    m.item.sample.id == id && m.item.warning == w
  }

  predicate SameKey(a: Message, b: Message) {
    About(a, b.item.sample.id, b.item.warning)
  }

  /** A sample is of a known player, and true as long as the player has not moved since. */
  predicate SampleOk(s: State, sample: Sample) {
    && sample.id in s.players
    && sample.streak <= s.players[sample.id].streak
    && (sample.streak == s.players[sample.id].streak ==> sample.idle <= s.players[sample.id].afk.Idle(s.now))
  }

  ghost predicate SamplesOk(s: State) {
    && (s.evaluator.Sampling? || s.evaluator.Working? ==> forall x :: x in s.evaluator.samples ==> SampleOk(s, x))
    && (s.evaluator.Working? ==> forall item :: item in s.evaluator.todo ==> SampleOk(s, item.sample))
  }

  /** One message by itself. */
  predicate MessageOk(s: State, timer: Timer, m: Message) {
    && m.item.sample.id in s.players
    && m.item.sample.idle >= timer.Threshold(m.item.warning)
    && m.item.sample.streak <= m.streak <= s.players[m.item.sample.id].streak
    && (m.item.sample.streak == m.streak ==> m.item.sample.idle <= m.idleThen)
    && (m.markedIn.Some? ==> m.streak <= m.markedIn.value <= s.players[m.item.sample.id].streak)
  }

  ghost predicate MessagesOk(s: State, timer: Timer) {
    forall i :: 0 <= i < |s.log| ==> MessageOk(s, timer, s.log[i])
  }

  /** Only the message being marked is unmarked. */
  ghost predicate MarksOk(s: State) {
    var pending := s.evaluator.Working? && s.evaluator.at == Marking;
    && (forall i :: 0 <= i < |s.log| && (pending ==> i < |s.log| - 1) ==> s.log[i].markedIn.Some?)
    && (pending ==>
          && s.log != [] && s.evaluator.todo != []
          && s.log[|s.log| - 1].item == s.evaluator.todo[0] && s.log[|s.log| - 1].markedIn.None?)
  }

  /** Messages of one kind to one player never share, or go back in, streaks. */
  ghost predicate Separated(log: seq<Message>) {
    forall i, j :: 0 <= i < j < |log| && SameKey(log[i], log[j]) ==>
      log[i].markedIn.Some? && log[i].markedIn.value < log[j].streak
  }

  /** A message of this kind has claimed the streak. */
  ghost predicate Claimed(s: State, id: Id, w: Warning, streak: nat) {
    exists i :: 0 <= i < |s.log| && About(s.log[i], id, w) && s.log[i].markedIn == Some(streak)
  }

  ghost predicate FlagsOk(s: State) {
    forall id, w :: id in s.players ==> (w in s.players[id].afk.warned <==> Claimed(s, id, w, s.players[id].streak))
  }

  /** The message about to go out is due, and every earlier one of its kind claimed an earlier streak. */
  ghost predicate SendingOk(s: State, timer: Timer) {
    s.evaluator.Working? && s.evaluator.at == Sending ==>
      && s.evaluator.todo != []
      && var item := s.evaluator.todo[0];
      && item.sample.id in s.players
      && item.sample.idle >= timer.Threshold(item.warning)
      && forall i :: 0 <= i < |s.log| && About(s.log[i], item.sample.id, item.warning) ==>
           s.log[i].markedIn.Some? && s.log[i].markedIn.value < s.players[item.sample.id].streak
  }

  ghost predicate Inv(s: State, timer: Timer) {
    SamplesOk(s) && MessagesOk(s, timer) && MarksOk(s) && Separated(s.log) && FlagsOk(s) && SendingOk(s, timer)
  }

  lemma {:induction false} SoftItems(samples: seq<Sample>, item: Item)
    requires item in Softly(samples)
    ensures item.sample in samples
  {
    if item != Item(samples[0], Approaching) && item != Item(samples[0], Marked) {
      SoftItems(samples[1..], item);
    }
  }

  lemma {:induction false} FinalItems(samples: seq<Sample>, item: Item)
    requires item in Finally(samples)
    ensures item.sample in samples
  {
    if item != Item(samples[0], Final) {
      FinalItems(samples[1..], item);
    }
  }

  /** Whatever happens, streaks only grow, and idle times only grow within one. */
  lemma PlayersStep(s: State, e: Event, timer: Timer, near: Near, id: Id)
    requires Enabled(s, e) && id in s.players
    ensures var t := Next(s, e, timer, near);
            && id in t.players && s.players[id].streak <= t.players[id].streak
            && (s.players[id].streak == t.players[id].streak ==> s.players[id].afk.Idle(s.now) <= t.players[id].afk.Idle(t.now))
  {
    hide Due, Softly, Finally;
  }

  lemma SampleStaysOk(s: State, e: Event, timer: Timer, near: Near, x: Sample)
    requires Enabled(s, e) && SampleOk(s, x)
    ensures SampleOk(Next(s, e, timer, near), x)
  {
    PlayersStep(s, e, timer, near, x.id);
    hide Next;
  }

  lemma StepKeepsSamples(s: State, e: Event, timer: Timer, near: Near)
    requires SamplesOk(s) && Enabled(s, e)
    ensures SamplesOk(Next(s, e, timer, near))
  {
    hide SampleOk, Softly, Finally, Touched, Due;
    var t := Next(s, e, timer, near);
    forall x | SampleOk(s, x) ensures SampleOk(t, x) {
      SampleStaysOk(s, e, timer, near, x);
    }
    match e
    case TakeSample(id) => NewSampleOk(s, id);
    case WarnSoftly =>
      forall item | item in Softly(s.evaluator.samples) ensures SampleOk(s, item.sample) {
        SoftItems(s.evaluator.samples, item);
      }
    case EndStage(full) =>
      forall item | item in Finally(s.evaluator.samples) ensures SampleOk(s, item.sample) {
        FinalItems(s.evaluator.samples, item);
      }
    case _ =>
  }

  lemma NewSampleOk(s: State, id: Id)
    requires id in s.players
    ensures SampleOk(s, Sample(id, s.players[id].afk.Idle(s.now), s.players[id].streak))
  {
  }

  /** A message keeps its good standing whatever happens next; marking it is part of that. */
  lemma MessageStaysOk(s: State, e: Event, timer: Timer, near: Near, m: Message)
    requires Enabled(s, e) && MessageOk(s, timer, m)
    ensures MessageOk(Next(s, e, timer, near), timer, m)
    ensures e.Mark? && m.item == s.evaluator.todo[0] ==>
              MessageOk(Next(s, e, timer, near), timer, m.(markedIn := Some(s.players[m.item.sample.id].streak)))
  {
    PlayersStep(s, e, timer, near, m.item.sample.id);
    if e.Mark? {
      MarkKeepsStreaks(s, timer, near, m.item.sample.id);
    }
    hide Next;
  }

  lemma MarkKeepsStreaks(s: State, timer: Timer, near: Near, id: Id)
    requires Enabled(s, Mark) && id in s.players
    ensures id in Next(s, Mark, timer, near).players && Next(s, Mark, timer, near).players[id].streak == s.players[id].streak
  {
  }

  lemma StepKeepsMessages(s: State, e: Event, timer: Timer, near: Near)
    requires SamplesOk(s) && MessagesOk(s, timer) && MarksOk(s) && SendingOk(s, timer) && Enabled(s, e)
    ensures MessagesOk(Next(s, e, timer, near), timer)
  {
    hide MessageOk, Softly, Finally, Touched, Due;
    var t := Next(s, e, timer, near);
    forall m | MessageOk(s, timer, m) ensures MessageOk(t, timer, m) {
      MessageStaysOk(s, e, timer, near, m);
    }
    if e.Send? {
      SentIsOk(s, timer);
    }
    if e.Mark? {
      MessageStaysOk(s, e, timer, near, s.log[|s.log| - 1]);
    }
  }

  lemma SentIsOk(s: State, timer: Timer)
    requires SamplesOk(s) && SendingOk(s, timer) && Enabled(s, Send)
    ensures var item := s.evaluator.todo[0];
            MessageOk(s, timer, Message(item, s.players[item.sample.id].streak, s.players[item.sample.id].afk.Idle(s.now), None))
  {
    assert SampleOk(s, s.evaluator.todo[0].sample);
  }

  lemma StepKeepsMarks(s: State, e: Event, timer: Timer, near: Near)
    requires MarksOk(s) && Enabled(s, e)
    ensures MarksOk(Next(s, e, timer, near))
  {
    hide Softly, Finally, Touched, Due;
  }

  lemma StepKeepsSeparation(s: State, e: Event, timer: Timer, near: Near)
    requires Separated(s.log) && SendingOk(s, timer) && Enabled(s, e)
    ensures Separated(Next(s, e, timer, near).log)
  {
    hide Softly, Finally, Touched, Due;
  }

  lemma StepKeepsFlags(s: State, e: Event, timer: Timer, near: Near)
    requires MessagesOk(s, timer) && MarksOk(s) && FlagsOk(s) && Enabled(s, e)
    ensures FlagsOk(Next(s, e, timer, near))
  {
    hide Next, Claimed;
    var t := Next(s, e, timer, near);
    forall id, w | id in t.players ensures w in t.players[id].afk.warned <==> Claimed(t, id, w, t.players[id].streak) {
      FlagStep(s, e, timer, near, id, w);
    }
  }

  /** Marking claims the current streak of one player for one warning; other claims stand. */
  lemma ClaimsStep(s: State, e: Event, timer: Timer, near: Near, id: Id, w: Warning, streak: nat)
    requires MarksOk(s) && Enabled(s, e)
    ensures Claimed(Next(s, e, timer, near), id, w, streak) <==>
              Claimed(s, id, w, streak)
              || (e.Mark? && s.evaluator.todo[0].sample.id == id && s.evaluator.todo[0].warning == w && s.players[id].streak == streak)
  {
    hide Softly, Finally, Touched, Due;
    var t := Next(s, e, timer, near);
    forall i | 0 <= i < |s.log| && s.log[i].markedIn.Some? ensures i < |t.log| && t.log[i] == s.log[i] {}
    if e.Mark? {
      var last := |s.log| - 1;
      assert t.log[last].item == s.evaluator.todo[0];
    }
  }

  /** No claim lies in the future. */
  lemma NoFutureClaims(s: State, timer: Timer, id: Id, w: Warning, streak: nat)
    requires MessagesOk(s, timer) && Claimed(s, id, w, streak)
    ensures id in s.players && streak <= s.players[id].streak
  {
  }

  lemma FlagStep(s: State, e: Event, timer: Timer, near: Near, id: Id, w: Warning)
    requires MessagesOk(s, timer) && MarksOk(s) && FlagsOk(s) && Enabled(s, e) && id in Next(s, e, timer, near).players
    ensures var p := Next(s, e, timer, near).players[id];
            w in p.afk.warned <==> Claimed(Next(s, e, timer, near), id, w, p.streak)
  {
    hide Claimed, MessagesOk, MarksOk, Softly, Finally, Due;
    var streak := Next(s, e, timer, near).players[id].streak;
    ClaimsStep(s, e, timer, near, id, w, streak);
    if Claimed(s, id, w, streak) {
      NoFutureClaims(s, timer, id, w, streak);
    }
  }

  lemma StepKeepsSending(s: State, e: Event, timer: Timer, near: Near)
    requires Inv(s, timer) && Enabled(s, e)
    ensures SendingOk(Next(s, e, timer, near), timer)
  {
    hide Softly, Finally, Touched, Separated, FlagsOk, SamplesOk, MessagesOk, MessageOk;
    if e.Check? {
      if Next(s, e, timer, near).evaluator.at == Sending {
        UnflaggedIsUnclaimed(s, timer);
      }
    } else if s.evaluator.Working? && s.evaluator.at == Sending {
      PlayersStep(s, e, timer, near, s.evaluator.todo[0].sample.id);
    }
  }

  /** When the flag is not set, every message of the kind claimed an earlier streak. */
  lemma UnflaggedIsUnclaimed(s: State, timer: Timer)
    requires MessagesOk(s, timer) && MarksOk(s) && FlagsOk(s) && Enabled(s, Check)
    requires s.evaluator.todo[0].warning !in s.players[s.evaluator.todo[0].sample.id].afk.warned
    ensures var item := s.evaluator.todo[0];
            forall i :: 0 <= i < |s.log| && About(s.log[i], item.sample.id, item.warning) ==>
              s.log[i].markedIn.Some? && s.log[i].markedIn.value < s.players[item.sample.id].streak
  {
    var item := s.evaluator.todo[0];
    assert !Claimed(s, item.sample.id, item.warning, s.players[item.sample.id].streak);
    forall i | 0 <= i < |s.log| && About(s.log[i], item.sample.id, item.warning)
      ensures s.log[i].markedIn.Some? && s.log[i].markedIn.value < s.players[item.sample.id].streak
    {
      assert MessageOk(s, timer, s.log[i]);
    }
  }

  /** The invariant holds in every state of every run. */
  lemma {:induction false} RunKeepsInv(trace: seq<State>, events: seq<Event>, timer: Timer, near: Near, n: nat)
    requires IsRun(trace, events, timer, near) && n <= |events|
    ensures Inv(trace[n], timer)
  {
    hide Next, Enabled, SamplesOk, MessagesOk, MarksOk, Separated, FlagsOk, SendingOk;
    if n == 0 {
      InitialInv(timer);
    } else {
      RunKeepsInv(trace, events, timer, near, n - 1);
      var s, e := trace[n - 1], events[n - 1];
      assert trace[n - 1 + 1] == Next(s, e, timer, near);
      StepKeepsSamples(s, e, timer, near);
      StepKeepsMessages(s, e, timer, near);
      StepKeepsMarks(s, e, timer, near);
      StepKeepsSeparation(s, e, timer, near);
      StepKeepsFlags(s, e, timer, near);
      StepKeepsSending(s, e, timer, near);
    }
  }

  lemma InitialInv(timer: Timer)
    ensures Inv(INITIAL, timer)
  {
  }

  // ---------------------------------------------------------------------------
  // What a player may rely on
  // ---------------------------------------------------------------------------

  /**
   Each warning reaches a player at most once per idle streak, wherever movement lands:
   of two messages of a kind, the earlier one's flag was written before the later one's
   streak began, and it claimed its own streak and all up to the one it was written in.
   */
  lemma OncePerStreak(trace: seq<State>, events: seq<Event>, timer: Timer, near: Near, n: nat, i: nat, j: nat)
    requires IsRun(trace, events, timer, near) && n <= |events|
    requires i < j < |trace[n].log| && SameKey(trace[n].log[i], trace[n].log[j])
    ensures var a, b := trace[n].log[i], trace[n].log[j];
            a.markedIn.Some? && a.streak <= a.markedIn.value < b.streak
  {
    RunKeepsInv(trace, events, timer, near, n);
    assert MessageOk(trace[n], timer, trace[n].log[i]);
    hide IsRun, MarksOk, FlagsOk, SendingOk, SamplesOk, MessagesOk;
  }

  /** No message goes out early: its sample had reached the threshold, and unless the player moved since, so has the player. */
  lemma MessagesAreDue(trace: seq<State>, events: seq<Event>, timer: Timer, near: Near, n: nat, i: nat)
    requires IsRun(trace, events, timer, near) && n <= |events| && i < |trace[n].log|
    ensures var m := trace[n].log[i];
            && m.item.sample.idle >= timer.Threshold(m.item.warning)
            && m.item.sample.streak <= m.streak
            && (m.item.sample.streak == m.streak ==> m.idleThen >= timer.Threshold(m.item.warning))
  {
    RunKeepsInv(trace, events, timer, near, n);
    assert MessageOk(trace[n], timer, trace[n].log[i]);
    hide IsRun, MarksOk, FlagsOk, SendingOk, SamplesOk, MessagesOk;
  }

  /** A streak claimed by an earlier streak's message gets no message of its own. */
  lemma ClaimedStreakIsSilent(trace: seq<State>, events: seq<Event>, timer: Timer, near: Near, n: nat, i: nat, j: nat)
    requires IsRun(trace, events, timer, near) && n <= |events|
    requires i < |trace[n].log| && j < |trace[n].log| && SameKey(trace[n].log[i], trace[n].log[j])
    requires trace[n].log[i].markedIn == Some(trace[n].log[j].streak)
    ensures i == j
  {
    hide IsRun;
    if i < j {
      OncePerStreak(trace, events, timer, near, n, i, j);
    } else if j < i {
      OncePerStreak(trace, events, timer, near, n, j, i);
      RunKeepsInv(trace, events, timer, near, n);
    }
  }

  /** A check sends exactly when the sample has reached the threshold and no message of its kind has claimed the current streak. */
  lemma ChecksSendUnlessClaimed(trace: seq<State>, events: seq<Event>, timer: Timer, near: Near, n: nat)
    requires IsRun(trace, events, timer, near) && n < |events| && events[n] == Check
    ensures var item := trace[n].evaluator.todo[0];
            trace[n + 1].evaluator.at == Sending <==>
            item.sample.idle >= timer.Threshold(item.warning)
            && !Claimed(trace[n], item.sample.id, item.warning, trace[n].players[item.sample.id].streak)
  {
    assert Enabled(trace[n], events[n]) && trace[n + 1] == Next(trace[n], events[n], timer, near);
    RunKeepsInv(trace, events, timer, near, n);
    hide IsRun, Claimed, MessagesOk, MarksOk, SendingOk, SamplesOk;
  }

  // ---------------------------------------------------------------------------
  // Which events a message and its flag come from
  // ---------------------------------------------------------------------------

  /** The event is a movement of the player that the tracker takes for one. */
  predicate Moves(s: State, e: Event, near: Near, id: Id) {
    e.Touch? && e.mover == id && id in s.players && !near(s.players[id].afk.pose, e.next)
  }

  /** The player does not move from event `a` up to, but not including, event `b`. */
  ghost predicate Still(trace: seq<State>, events: seq<Event>, near: Near, id: Id, a: nat, b: nat)
    requires b <= |events| && |trace| == |events| + 1
  {
    forall k :: a <= k < b ==> !Moves(trace[k], events[k], near, id)
  }

  lemma StreakStep(s: State, e: Event, timer: Timer, near: Near, id: Id)
    requires Enabled(s, e) && id in s.players
    ensures id in Next(s, e, timer, near).players
    ensures Next(s, e, timer, near).players[id].streak == s.players[id].streak + if Moves(s, e, near, id) then 1 else 0
  {
    hide Due, Softly, Finally;
  }

  /** A streak lasts exactly as long as the player does not move. */
  lemma {:induction false} StreakLastsWhileStill(trace: seq<State>, events: seq<Event>, timer: Timer, near: Near, id: Id, a: nat, b: nat)
    requires IsRun(trace, events, timer, near) && a <= b <= |events| && id in trace[a].players
    ensures id in trace[b].players && trace[a].players[id].streak <= trace[b].players[id].streak
    ensures trace[a].players[id].streak == trace[b].players[id].streak <==> Still(trace, events, near, id, a, b)
  {
    hide Next, Enabled, Moves;
    if a < b {
      StreakLastsWhileStill(trace, events, timer, near, id, a, b - 1);
      assert trace[b - 1 + 1] == Next(trace[b - 1], events[b - 1], timer, near);
      StreakStep(trace[b - 1], events[b - 1], timer, near, id);
    }
  }

  /** The sample was taken at event `a`. */
  predicate SampledAt(trace: seq<State>, events: seq<Event>, x: Sample, a: nat) {
    && a < |events| && a < |trace| && events[a] == TakeSample(x.id) && x.id in trace[a].players
    && x == Sample(x.id, trace[a].players[x.id].afk.Idle(trace[a].now), trace[a].players[x.id].streak)
  }

  ghost predicate SampledBefore(trace: seq<State>, events: seq<Event>, x: Sample, n: nat) {
    exists a :: 0 <= a < n && SampledAt(trace, events, x, a)
  }

  /** Message number `i` went out at event `b`, for this item and in this streak. */
  predicate SentAt(trace: seq<State>, events: seq<Event>, i: nat, item: Item, streak: nat, b: nat) {
    && b < |events| && b < |trace| && events[b] == Send && Enabled(trace[b], Send)
    && |trace[b].log| == i && trace[b].evaluator.todo[0] == item
    && streak == trace[b].players[item.sample.id].streak
  }

  /** Its flag was written at event `c`, in this streak. */
  predicate MarkedAt(trace: seq<State>, events: seq<Event>, i: nat, item: Item, streak: nat, c: nat) {
    && c < |events| && c < |trace| && events[c] == Mark && Enabled(trace[c], Mark)
    && |trace[c].log| == i + 1 && trace[c].evaluator.todo[0] == item
    && streak == trace[c].players[item.sample.id].streak
  }

  /** The message went out at some event before `n`, from a sample taken before that. */
  ghost predicate SentBefore(trace: seq<State>, events: seq<Event>, i: nat, m: Message, n: nat) {
    exists b :: 0 <= b < n && SentAt(trace, events, i, m.item, m.streak, b) && SampledBefore(trace, events, m.item.sample, b)
  }

  /** Its flag was written at some event before `n`, after it went out. */
  ghost predicate MarkedBefore(trace: seq<State>, events: seq<Event>, i: nat, m: Message, n: nat) {
    m.markedIn.Some? &&
    exists b, c :: 0 <= b < c < n && SentAt(trace, events, i, m.item, m.streak, b) && MarkedAt(trace, events, i, m.item, m.markedIn.value, c)
  }

  ghost predicate SamplesTraced(trace: seq<State>, events: seq<Event>, n: nat)
    requires n < |trace|
  {
    && (trace[n].evaluator.Sampling? || trace[n].evaluator.Working? ==>
          forall x :: x in trace[n].evaluator.samples ==> SampledBefore(trace, events, x, n))
    && (trace[n].evaluator.Working? ==> forall item :: item in trace[n].evaluator.todo ==> SampledBefore(trace, events, item.sample, n))
  }

  ghost predicate LogTraced(trace: seq<State>, events: seq<Event>, n: nat)
    requires n < |trace|
  {
    && (forall i :: 0 <= i < |trace[n].log| ==> SentBefore(trace, events, i, trace[n].log[i], n))
    && (forall i :: 0 <= i < |trace[n].log| && trace[n].log[i].markedIn.Some? ==> MarkedBefore(trace, events, i, trace[n].log[i], n))
  }

  lemma TraceSamples(trace: seq<State>, events: seq<Event>, timer: Timer, near: Near, n: nat)
    requires IsRun(trace, events, timer, near) && n < |events| && SamplesTraced(trace, events, n)
    ensures SamplesTraced(trace, events, n + 1)
  {
    var s, e := trace[n], events[n];
    assert Enabled(s, e) && trace[n + 1] == Next(s, e, timer, near);
    hide IsRun, Softly, Finally, Touched, Due, SampledAt;
    forall x | SampledBefore(trace, events, x, n) ensures SampledBefore(trace, events, x, n + 1) {
      var a :| 0 <= a < n && SampledAt(trace, events, x, a);
    }
    match e
    case TakeSample(id) =>
      NewSampleTraced(trace, events, n);
    case WarnSoftly =>
      forall item | item in Softly(s.evaluator.samples) ensures SampledBefore(trace, events, item.sample, n) {
        SoftItems(s.evaluator.samples, item);
      }
    case EndStage(full) =>
      forall item | item in Finally(s.evaluator.samples) ensures SampledBefore(trace, events, item.sample, n) {
        FinalItems(s.evaluator.samples, item);
      }
    case _ =>
  }

  lemma NewSampleTraced(trace: seq<State>, events: seq<Event>, n: nat)
    requires n < |events| && n < |trace| && events[n].TakeSample? && events[n].id in trace[n].players
    ensures var id, p := events[n].id, trace[n].players[events[n].id];
            SampledBefore(trace, events, Sample(id, p.afk.Idle(trace[n].now), p.streak), n + 1)
  {
    var id, p := events[n].id, trace[n].players[events[n].id];
    assert SampledAt(trace, events, Sample(id, p.afk.Idle(trace[n].now), p.streak), n);
  }

  /** How the log changes: a send adds an unmarked message, a mark fills in the last one. */
  lemma LogStep(s: State, e: Event, timer: Timer, near: Near)
    requires MarksOk(s) && Enabled(s, e)
    ensures var t := Next(s, e, timer, near);
            if e == Send then
              var item := s.evaluator.todo[0];
              var p := s.players[item.sample.id];
              t.log == s.log + [Message(item, p.streak, p.afk.Idle(s.now), None)]
            else if e == Mark then
              var item, last := s.evaluator.todo[0], |s.log| - 1;
              && last >= 0 && s.log[last].item == item && s.log[last].markedIn == None
              && t.log == s.log[last := s.log[last].(markedIn := Some(s.players[item.sample.id].streak))]
            else t.log == s.log
  {
    hide Softly, Finally, Touched, Due;
  }

  /** One message of the log, from one event to the next. */
  lemma TraceMessage(trace: seq<State>, events: seq<Event>, timer: Timer, near: Near, n: nat, i: nat)
    requires IsRun(trace, events, timer, near) && n < |events| && MarksOk(trace[n]) && i < |trace[n].log|
    requires SentBefore(trace, events, i, trace[n].log[i], n)
    requires trace[n].log[i].markedIn.Some? ==> MarkedBefore(trace, events, i, trace[n].log[i], n)
    ensures i < |trace[n + 1].log| && SentBefore(trace, events, i, trace[n + 1].log[i], n + 1)
    ensures trace[n + 1].log[i].markedIn.Some? ==> MarkedBefore(trace, events, i, trace[n + 1].log[i], n + 1)
  {
    assert Enabled(trace[n], events[n]) && trace[n + 1] == Next(trace[n], events[n], timer, near);
    hide IsRun, SentBefore, MarkedBefore;
    LogStep(trace[n], events[n], timer, near);
    hide Next, MarksOk;
    OldMessageTraced(trace, events, n, i, trace[n].log[i]);
    if events[n] == Mark && i == |trace[n].log| - 1 {
      MarkTraced(trace, events, n, i, trace[n].log[i]);
    }
  }

  lemma TraceLog(trace: seq<State>, events: seq<Event>, timer: Timer, near: Near, n: nat)
    requires IsRun(trace, events, timer, near) && n < |events|
    requires MarksOk(trace[n]) && SamplesTraced(trace, events, n) && LogTraced(trace, events, n)
    ensures LogTraced(trace, events, n + 1)
  {
    assert Enabled(trace[n], events[n]) && trace[n + 1] == Next(trace[n], events[n], timer, near);
    hide IsRun, Enabled, Next, SentBefore, MarkedBefore, SamplesTraced, MarksOk;
    LogStep(trace[n], events[n], timer, near);
    var next, log := n + 1, trace[n + 1].log;
    assert |log| >= |trace[n].log|;
    forall i | 0 <= i < |trace[n].log|
      ensures SentBefore(trace, events, i, log[i], next)
      ensures log[i].markedIn.Some? ==> MarkedBefore(trace, events, i, log[i], next)
    {
      TraceMessage(trace, events, timer, near, n, i);
    }
    if events[n] == Send {
      SendTraced(trace, events, n);
    }
  }

  lemma SendTraced(trace: seq<State>, events: seq<Event>, n: nat)
    requires n < |events| && n < |trace| && events[n] == Send && Enabled(trace[n], Send) && SamplesTraced(trace, events, n)
    ensures var item := trace[n].evaluator.todo[0];
            var p := trace[n].players[item.sample.id];
            SentBefore(trace, events, |trace[n].log|, Message(item, p.streak, p.afk.Idle(trace[n].now), None), n + 1)
  {
    var item := trace[n].evaluator.todo[0];
    assert SentAt(trace, events, |trace[n].log|, item, trace[n].players[item.sample.id].streak, n);
    hide SentAt, SampledBefore;
  }

  lemma OldMessageTraced(trace: seq<State>, events: seq<Event>, n: nat, i: nat, m: Message)
    requires SentBefore(trace, events, i, m, n)
    ensures SentBefore(trace, events, i, m, n + 1)
    ensures MarkedBefore(trace, events, i, m, n) ==> MarkedBefore(trace, events, i, m, n + 1)
  {
    hide SentAt, SampledBefore, MarkedAt;
    var b :| 0 <= b < n && SentAt(trace, events, i, m.item, m.streak, b) && SampledBefore(trace, events, m.item.sample, b);
  }

  lemma MarkTraced(trace: seq<State>, events: seq<Event>, n: nat, i: nat, m: Message)
    requires n < |events| && n < |trace| && events[n] == Mark && Enabled(trace[n], Mark)
    requires |trace[n].log| == i + 1 && trace[n].evaluator.todo[0] == m.item && SentBefore(trace, events, i, m, n)
    ensures var marked := m.(markedIn := Some(trace[n].players[m.item.sample.id].streak));
            SentBefore(trace, events, i, marked, n + 1) && MarkedBefore(trace, events, i, marked, n + 1)
  {
    hide SentAt, SampledBefore;
    var b :| 0 <= b < n && SentAt(trace, events, i, m.item, m.streak, b) && SampledBefore(trace, events, m.item.sample, b);
    assert MarkedAt(trace, events, i, m.item, trace[n].players[m.item.sample.id].streak, n);
  }

  lemma {:induction false} RunIsTraced(trace: seq<State>, events: seq<Event>, timer: Timer, near: Near, n: nat)
    requires IsRun(trace, events, timer, near) && n <= |events|
    ensures SamplesTraced(trace, events, n) && LogTraced(trace, events, n)
  {
    hide SampledBefore, SentBefore, MarkedBefore, Enabled, Next;
    if n > 0 {
      RunIsTraced(trace, events, timer, near, n - 1);
      RunKeepsInv(trace, events, timer, near, n - 1);
      TraceSamples(trace, events, timer, near, n - 1);
      TraceLog(trace, events, timer, near, n - 1);
    }
  }

  /** A message arrives in the streak its sample was taken in exactly when the player did not move in between. */
  lemma InItsStreakIffStill(trace: seq<State>, events: seq<Event>, timer: Timer, near: Near, n: nat, i: nat) returns (a: nat, b: nat)
    requires IsRun(trace, events, timer, near) && n <= |events| && i < |trace[n].log|
    ensures var m := trace[n].log[i];
            && a < b < n && SampledAt(trace, events, m.item.sample, a) && SentAt(trace, events, i, m.item, m.streak, b)
            && (m.streak == m.item.sample.streak <==> Still(trace, events, near, m.item.sample.id, a, b))
  {
    RunIsTraced(trace, events, timer, near, n);
    var m := trace[n].log[i];
    assert SentBefore(trace, events, i, m, n);
    b :| 0 <= b < n && SentAt(trace, events, i, m.item, m.streak, b) && SampledBefore(trace, events, m.item.sample, b);
    a :| 0 <= a < b && SampledAt(trace, events, m.item.sample, a);
    StreakLastsWhileStill(trace, events, timer, near, m.item.sample.id, a, b);
    hide IsRun, Still;
  }

  /** A flag is written in the streak its message was sent in exactly when the player did not move in between. */
  lemma FlaggedInItsStreakIffStill(trace: seq<State>, events: seq<Event>, timer: Timer, near: Near, n: nat, i: nat) returns (b: nat, c: nat)
    requires IsRun(trace, events, timer, near) && n <= |events| && i < |trace[n].log| && trace[n].log[i].markedIn.Some?
    ensures var m := trace[n].log[i];
            && b < c < n && SentAt(trace, events, i, m.item, m.streak, b) && MarkedAt(trace, events, i, m.item, m.markedIn.value, c)
            && (m.markedIn == Some(m.streak) <==> Still(trace, events, near, m.item.sample.id, b, c))
  {
    RunIsTraced(trace, events, timer, near, n);
    var m := trace[n].log[i];
    assert MarkedBefore(trace, events, i, m, n);
    b, c :| 0 <= b < c < n && SentAt(trace, events, i, m.item, m.streak, b) && MarkedAt(trace, events, i, m.item, m.markedIn.value, c);
    StreakLastsWhileStill(trace, events, timer, near, m.item.sample.id, b, c);
    hide IsRun, Still;
  }

  // ---------------------------------------------------------------------------
  // A movement between the check and the write
  // ---------------------------------------------------------------------------

  lemma Step(trace: seq<State>, events: seq<Event>, timer: Timer, near: Near, e: Event) returns (longer: seq<State>, more: seq<Event>)
    requires |trace| == |events| + 1 && IsRun(trace, events, timer, near) && Enabled(trace[|events|], e)
    ensures |longer| == |more| + 1 && IsRun(longer, more, timer, near)
    ensures longer[|more|] == Next(trace[|events|], e, timer, near)
  {
    hide Next, Enabled;
    longer, more := trace + [Next(trace[|events|], e, timer, near)], events + [e];
  }

  /**
   The price of the separate steps: a movement between the check and the send makes the
   message arrive in a streak without any idle time, and a movement between the check and
   the write lets the flag silence the streak after the one the message was sent in.
   */
  lemma LateStepsMislead(timer: Timer, near: Near, pose: Pose, moved: Pose, back: Pose)
    returns (trace: seq<State>, events: seq<Event>)
    requires !near(pose, moved) && !near(moved, back)
    requires timer.Threshold(Approaching) >= 0
    ensures |trace| == |events| + 1 && IsRun(trace, events, timer, near)
    ensures var s := trace[|events|];
            && |s.log| == 1
            && s.log[0].streak == 1 && s.log[0].idleThen == 0
            && s.log[0].markedIn == Some(2) && 0 in s.players && s.players[0].streak == 2
            && Approaching in s.players[0].afk.warned
  {
    hide IsRun;
    trace, events := Start(timer, near);
    trace, events := Step(trace, events, timer, near, Join(0, pose));
    trace, events := Step(trace, events, timer, near, Elapse(timer.warnApproaching));
    trace, events := Step(trace, events, timer, near, Begin);
    trace, events := Step(trace, events, timer, near, TakeSample(0));
    var sample := Sample(0, timer.warnApproaching, 0);
    assert trace[|events|].evaluator == Sampling([sample]);
    trace, events := Step(trace, events, timer, near, WarnSoftly);
    assert Softly([sample]) == [Item(sample, Approaching), Item(sample, Marked)] + Softly([sample][1..]);
    assert [sample][1..] == [];
    trace, events := Step(trace, events, timer, near, Check);
    trace, events := Step(trace, events, timer, near, Touch(0, moved));
    trace, events := Step(trace, events, timer, near, Send);
    trace, events := Step(trace, events, timer, near, Touch(0, back));
    trace, events := Step(trace, events, timer, near, Mark);
  }

  lemma Start(timer: Timer, near: Near) returns (trace: seq<State>, events: seq<Event>)
    ensures |trace| == |events| + 1 && IsRun(trace, events, timer, near) && trace[|events|] == INITIAL
  {
    trace, events := [INITIAL], [];
  }

  // ---------------------------------------------------------------------------
  // The uninterrupted warning
  // ---------------------------------------------------------------------------

  /** The steps for the item at the front, taken back to back. */
  ghost function WarnFront(s: State, timer: Timer, near: Near): State
    requires Enabled(s, Check)
  {
    var a := Next(s, Check, timer, near);
    if a.evaluator.at == Reading then a else Next(Next(a, Send, timer, near), Mark, timer, near)
  }

  /** Taken without interruption, the steps have exactly the effect proved of `Session.Warn`. */
  lemma StepsRefineWarn(s: State, timer: Timer, near: Near)
    requires Enabled(s, Check)
    ensures var item, t := s.evaluator.todo[0], WarnFront(s, timer, near);
            var p := s.players[item.sample.id];
            && t.players == s.players[item.sample.id := p.(afk := Flagged(p.afk, timer, item.sample.idle, [item.warning]))]
            && |t.log| == |s.log| + |Messages(p.afk, timer, item.sample.idle, [item.warning])|
            && (|t.log| > |s.log| ==> t.log[|s.log|].item == item && t.log[|s.log|].markedIn == Some(t.log[|s.log|].streak))
            && t.evaluator == s.evaluator.(todo := s.evaluator.todo[1..])
  {
    var item := s.evaluator.todo[0];
    var p := s.players[item.sample.id];
    OneMessage(p.afk, timer, item.sample.idle, item.warning);
    hide Messages;
    assert Flagged(p.afk, timer, item.sample.idle, [item.warning]).warned
        == if item.sample.idle >= timer.Threshold(item.warning) then p.afk.warned + {item.warning} else p.afk.warned;
    if !Due(p.afk, timer, item.warning, item.sample.idle) {
      assert Flagged(p.afk, timer, item.sample.idle, [item.warning]).warned == p.afk.warned;
      assert s.players[item.sample.id := p] == s.players;
    }
  }
}
