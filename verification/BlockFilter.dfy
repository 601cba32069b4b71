/**
 Block actions of a player input packet: breaking outside the border, or against the
 claim policy, is taken out of the packet; everything else is forwarded in order.
 */
module BlockFilters {
  import opened Wrappers
  import opened Numbers
  import opened Dimensions
  import opened Claims
  import opened Snapshots
  import opened Policy
  import opened Metrics
  import opened Areas
  import opened Refresh
  import opened Decisions
  import opened SubChunks

  datatype ActionKind =
    | StartBreak
    | PredictDestroyBlock
    | ContinueDestroyBlock
    | OtherAction(code: int32)

  datatype BlockPos = BlockPos(x: int32, y: int32, z: int32)
  datatype PlayerBlockAction = PlayerBlockAction(kind: ActionKind, position: BlockPos, face: int32)

  /** The part of the packet that is filtered; `None` when it carries no actions. */
  class PlayerAuthInput {
    var blockActions: Option<seq<PlayerBlockAction>>

    constructor (blockActions: Option<seq<PlayerBlockAction>>)
      ensures this.blockActions == blockActions
    {
      this.blockActions := blockActions;
    }
  }

  predicate IsFilterable(kind: ActionKind) {
    kind == StartBreak || kind == PredictDestroyBlock || kind == ContinueDestroyBlock
  }

  /** A block position as the policy sees it. */
  function BlockVector(p: BlockPos): Vector3 {
    Vector3(ToFloat32(p.x as int), ToFloat32(p.y as int), ToFloat32(p.z as int))
  }

  // ---------------------------------------------------------------------------
  // Splitting a list by a verdict for each place
  // ---------------------------------------------------------------------------

  /** The actions whose verdict is to forward, in order. */
  function Forwarded(actions: seq<PlayerBlockAction>, refused: seq<bool>): seq<PlayerBlockAction>
    requires |refused| == |actions|
  {
    if actions == [] then []
    else Forwarded(actions[..|actions| - 1], refused[..|actions| - 1])
         + (if refused[|actions| - 1] then [] else [actions[|actions| - 1]])
  }

  /** The positions of the actions whose verdict is to refuse, in order. */
  function Refused(actions: seq<PlayerBlockAction>, refused: seq<bool>): seq<BlockPos>
    requires |refused| == |actions|
  {
    if actions == [] then []
    else Refused(actions[..|actions| - 1], refused[..|actions| - 1])
         + (if refused[|actions| - 1] then [actions[|actions| - 1].position] else [])
  }

  lemma NoActions(border: Option<Area2D>, actions: seq<PlayerBlockAction>, refused: seq<bool>)
    requires |refused| == |actions|
    ensures Forwarded(actions[..0], refused[..0]) == [] && Refused(actions[..0], refused[..0]) == [] && Asked(border, actions[..0]) == 0
  {
  }

  lemma NextAction(border: Option<Area2D>, actions: seq<PlayerBlockAction>, refused: seq<bool>, n: nat)
    requires n < |actions| == |refused|
    ensures Forwarded(actions[..n + 1], refused[..n + 1]) == Forwarded(actions[..n], refused[..n]) + if refused[n] then [] else [actions[n]]
    ensures Refused(actions[..n + 1], refused[..n + 1]) == Refused(actions[..n], refused[..n]) + if refused[n] then [actions[n].position] else []
    ensures Asked(border, actions[..n + 1]) == Asked(border, actions[..n]) + if IsAsked(border, actions[n]) then 1 else 0
  {
    assert actions[..n + 1][..n] == actions[..n] && refused[..n + 1][..n] == refused[..n];
  }

  /** Later actions leave what was listed before them in place. */
  lemma {:induction false} ListsGrow(actions: seq<PlayerBlockAction>, refused: seq<bool>, i: nat, n: nat)
    requires i <= n <= |actions| == |refused|
    ensures Forwarded(actions[..i], refused[..i]) <= Forwarded(actions[..n], refused[..n])
    ensures Refused(actions[..i], refused[..i]) <= Refused(actions[..n], refused[..n])
  {
    hide Forwarded, Refused;
    if i < n {
      ListsGrow(actions, refused, i, n - 1);
      NextAction(None, actions, refused, n - 1);
    }
  }

  /**
   Nothing is lost, doubled or reordered: every action stands in exactly one of the two
   lists, right after the actions of that list that came before it.
   */
  lemma Partition(actions: seq<PlayerBlockAction>, refused: seq<bool>, i: nat)
    requires |refused| == |actions| && i < |actions|
    ensures |Forwarded(actions, refused)| + |Refused(actions, refused)| == |actions|
    ensures |Forwarded(actions[..i], refused[..i])| + |Refused(actions[..i], refused[..i])| == i
    ensures !refused[i] ==> var k := |Forwarded(actions[..i], refused[..i])|;
                            k < |Forwarded(actions, refused)| && Forwarded(actions, refused)[k] == actions[i]
    ensures refused[i] ==> var k := |Refused(actions[..i], refused[..i])|;
                           k < |Refused(actions, refused)| && Refused(actions, refused)[k] == actions[i].position
  {
    hide Forwarded, Refused;
    LengthsAddUp(actions, refused);
    LengthsAddUp(actions[..i], refused[..i]);
    NextAction(None, actions, refused, i);
    ListsGrow(actions, refused, i + 1, |actions|);
    assert actions[..|actions|] == actions && refused[..|actions|] == refused;
  }

  lemma {:induction false} LengthsAddUp(actions: seq<PlayerBlockAction>, refused: seq<bool>)
    requires |refused| == |actions|
    ensures |Forwarded(actions, refused)| + |Refused(actions, refused)| == |actions|
  {
    if actions != [] {
      LengthsAddUp(actions[..|actions| - 1], refused[..|actions| - 1]);
    }
  }

  /** What is forwarded was in the packet, with a verdict to forward. */
  lemma {:induction false} ForwardedHasVerdict(actions: seq<PlayerBlockAction>, refused: seq<bool>, action: PlayerBlockAction)
    returns (i: nat)
    requires |refused| == |actions| && action in Forwarded(actions, refused)
    ensures i < |actions| && actions[i] == action && !refused[i]
  {
    var n := |actions| - 1;
    if action in Forwarded(actions[..n], refused[..n]) {
      i := ForwardedHasVerdict(actions[..n], refused[..n], action);
    } else {
      i := n;
    }
  }

  // ---------------------------------------------------------------------------
  // The handler
  // ---------------------------------------------------------------------------

  /** The published payload refuses breaking the block at `now`. */
  ghost predicate ClaimRefuses(s: Session, p: BlockPos, now: Time)
    reads s, s.claimFactory
  {
    s.claimFactory != null && s.claimPrefilter &&
    Refusing(s.claimFactory.rows, s.claimFactory.publishedAt, s.claimFactory.maxSnapshotAge, now, s.dimension, s.definitions,
             ClaimActor(s.xuid, s.operator), BlockBreak,
             Position(Vector3(ToFloat32(p.x as int), ToFloat32(p.y as int), ToFloat32(p.z as int))))
  }

  /** On the border or beyond it. */
  predicate AtBorder(border: Option<Area2D>, p: BlockPos) {
    border.Some?
    && (p.x <= border.value.minX || p.x >= border.value.maxX || p.z <= border.value.minZ || p.z >= border.value.maxZ)
  }

  /** Starting, predicting or continuing a break is refused beyond the border, and where the claims refuse it. */
  ghost predicate Refuses(s: Session, border: Option<Area2D>, action: PlayerBlockAction, now: Time)
    reads s, s.claimFactory
  {
    && (action.kind == StartBreak || action.kind == PredictDestroyBlock || action.kind == ContinueDestroyBlock)
    && (AtBorder(border, action.position) || ClaimRefuses(s, action.position, now))
  }

  /** The block breaks the claim counters have seen. */
  ghost function BreaksSeen(s: Session): nat
    reads s, s.claimFactory, if s.claimFactory == null then {} else {s.claimFactory.metrics.seen}
  {
    if s.claimFactory == null || s.claimFactory.metrics.seen.Length <= BlockBreak.Code() then 0
    else s.claimFactory.metrics.seen[BlockBreak.Code()]
  }

  /** The claim policy is asked about breaks inside the border. */
  predicate IsAsked(border: Option<Area2D>, action: PlayerBlockAction) {
    !action.kind.OtherAction? && !AtBorder(border, action.position)
  }

  /** How many of the actions are put to the claim policy. */
  function Asked(border: Option<Area2D>, actions: seq<PlayerBlockAction>): nat {
    if actions == [] then 0
    else Asked(border, actions[..|actions| - 1]) + (if IsAsked(border, actions[|actions| - 1]) then 1 else 0)
  }

  /** The verdict on every action of the packet, each at its own time. */
  ghost function Verdicts(s: Session, border: Option<Area2D>, actions: seq<PlayerBlockAction>, clock: seq<Time>): (verdicts: seq<bool>)
    requires |clock| == |actions|
    reads s, s.claimFactory
    ensures |verdicts| == |actions| && forall i :: 0 <= i < |actions| ==> verdicts[i] == Refuses(s, border, actions[i], clock[i])
  {
    seq(|actions|, i requires 0 <= i < |actions| reads s, s.claimFactory => Refuses(s, border, actions[i], clock[i]))
  }

  /** Asks the claims about one break: answered as the published payload prescribes, and counted once. */
  method BreakPermitted(s: Session, conversion: Float32 -> int32, p: BlockPos, now: Time) returns (permitted: bool)
    requires s.Valid()
    modifies if s.claimFactory == null then {} else s.claimFactory.metrics.Repr
    ensures s.Valid()
    ensures forall q, t :: ClaimRefuses(s, q, t) == old(ClaimRefuses(s, q, t))
    ensures permitted == !ClaimRefuses(s, p, now)
    ensures BreaksSeen(s) == old(BreaksSeen(s)) + if s.claimFactory != null then 1 else 0
  {
    assert s.claimFactory != null ==> s.claimFactory !in s.claimFactory.metrics.Repr && s.claimFactory.metrics.Valid();
    hide Factory.Valid, Policy.ClaimActionPermitted, Judge, Refusing;
    permitted := s.ClaimActionPermitted(conversion, BlockBreak, Position(BlockVector(p)), now);
  }

  /**
   Decides one action; the border is asked first, and the claims only inside it. Deciding
   changes no verdict, and counts one break exactly when the claims are asked.
   */
  method Denied(
    s: Session, border: Option<Area2D>, conversion: Float32 -> int32, actions: seq<PlayerBlockAction>, clock: seq<Time>, n: nat)
    returns (denied: bool)
    requires s.Valid() && n < |actions| == |clock|
    modifies if s.claimFactory == null then {} else s.claimFactory.metrics.Repr
    ensures s.Valid()
    ensures Verdicts(s, border, actions, clock) == old(Verdicts(s, border, actions, clock))
    ensures denied == Verdicts(s, border, actions, clock)[n]
    ensures BreaksSeen(s) == old(BreaksSeen(s)) + if s.claimFactory != null && IsAsked(border, actions[n]) then 1 else 0
  {
    hide Session.Valid, ClaimRefuses, BreaksSeen, Verdicts;
    if !IsFilterable(actions[n].kind) {
      return false;
    }
    if border.Some? && !border.value.PositionInside(actions[n].position.x, actions[n].position.z) {
      return true;
    }
    var permitted := BreakPermitted(s, conversion, actions[n].position, clock[n]);
    denied := !permitted;
  }

  /**
   Takes the refused actions out of the packet and returns their positions; `clock` is the
   time at which each action is decided. A packet without actions is left as it is.
   */
  method FilterPlayerAuthInputPacket(
    s: Session, border: Option<Area2D>, pkt: PlayerAuthInput, conversion: Float32 -> int32, clock: seq<Time>)
    returns (deniedPositions: Option<seq<BlockPos>>)
    requires s.Valid()
    requires s.claimFactory != null ==> pkt !in s.claimFactory.metrics.Repr
    requires pkt.blockActions.Some? ==> |clock| == |pkt.blockActions.value|
    modifies pkt, if s.claimFactory == null then {} else s.claimFactory.metrics.Repr
    ensures s.Valid()
    ensures old(pkt.blockActions).None? ==> pkt.blockActions.None? && deniedPositions.None?
    ensures old(pkt.blockActions).Some? ==>
              var actions := old(pkt.blockActions).value;
              var refused := old(Verdicts(s, border, actions, clock));
              && pkt.blockActions == Some(Forwarded(actions, refused))
              && deniedPositions == Some(Refused(actions, refused))
              && BreaksSeen(s) == old(BreaksSeen(s)) + if s.claimFactory == null then 0 else Asked(border, actions)
  {
    hide Session.Valid, Verdicts, Refuses, BreaksSeen, IsAsked, Forwarded, Refused, Asked;
    if pkt.blockActions.None? {
      return None;
    }
    var actions := pkt.blockActions.value;
    ghost var refused := Verdicts(s, border, actions, clock);
    var filtered: seq<PlayerBlockAction> := [];
    var positions: seq<BlockPos> := [];
    NoActions(border, actions, refused);
    for n := 0 to |actions|
      invariant s.Valid()
      invariant Verdicts(s, border, actions, clock) == refused
      invariant BreaksSeen(s) == old(BreaksSeen(s)) + if s.claimFactory == null then 0 else Asked(border, actions[..n])
      invariant pkt.blockActions == Some(actions)
      invariant filtered == Forwarded(actions[..n], refused[..n])
      invariant positions == Refused(actions[..n], refused[..n])
    {
      var denied := Denied(s, border, conversion, actions, clock, n);
      NextAction(border, actions, refused, n);
      if !denied {
        filtered := filtered + [actions[n]];
        continue;
      }
      positions := positions + [actions[n].position];
    }
    assert actions[..|actions|] == actions && refused[..|actions|] == refused;
    pkt.blockActions := Some(filtered);
    deniedPositions := Some(positions);
  }

  // ---------------------------------------------------------------------------
  // What the server behind the proxy still sees
  // ---------------------------------------------------------------------------

  /** A forwarded break lies strictly inside the border, in a chunk that is delivered to the client. */
  lemma ForwardedStaysInside(s: Session, area: Area2D, actions: seq<PlayerBlockAction>, clock: seq<Time>, action: PlayerBlockAction)
    requires |clock| == |actions|
    requires action in Forwarded(actions, Verdicts(s, Some(area), actions, clock)) && !action.kind.OtherAction?
    ensures area.minX < action.position.x < area.maxX && area.minZ < action.position.z < area.maxZ
    ensures area.ChunkInside(ChunkOf(action.position.x), ChunkOf(action.position.z))
  {
    hide ClaimRefuses, Verdicts;
    var i := ForwardedHasVerdict(actions, Verdicts(s, Some(area), actions, clock), action);
    assert !Refuses(s, Some(area), actions[i], clock[i]);
    InsideIsDelivered(area, action.position.x, action.position.z);
  }

  /** The verdict of the scan on a break in a column that is drawn. */
  lemma ShownDeniedIsJudged(
    snapshot: Snapshot, rows: Rows, conversion: Float32 -> int32, dimension: int32, definitions: seq<DimensionDefinition>,
    actor: ClaimActor, chunkX: int32, chunkZ: int32, i: int, j: int, p: BlockPos)
    requires Buildable(rows) && BuiltFrom(snapshot, rows) && Resolution(dimension, definitions).Some?
    requires AxisShared(chunkX) && AxisShared(chunkZ) && 0 <= i < 16 && 0 <= j < 16
    requires ColumnDrawn(conversion, snapshot.claims, Resolution(dimension, definitions).value, actor, chunkX, chunkZ, i, j)
    requires p.x as int == Column(chunkX, i) && p.z as int == Column(chunkZ, j)
    ensures var data := Position(BlockVector(p));
            var verdict := Judge(true, data, Some(snapshot), Ready, dimension, definitions);
            verdict.Judged? && !ClaimActionPermitted(verdict.cl, actor, BlockBreak, data)
  {
    hide Buildable, BuiltFrom, Filed, ColumnDrawn, ColumnEnforced, AxisShared, Resolution, Judge, ToFloat32, Policy.ClaimActionPermitted;
    SnapshotIsFiled(snapshot, rows);
    SharedDrawnIffEnforced(conversion, snapshot.claims, Resolution(dimension, definitions).value, actor, chunkX, chunkZ, i, j);
    var c := ColumnPosition(chunkX, chunkZ, i, j);
    EnforcedMeansRefused(snapshot, dimension, definitions, actor, c.x, c.z, Position(BlockVector(p)), BlockBreak);
  }

  lemma ShownDeniedIsRefusing(
    snapshot: Option<Snapshot>, rows: Option<Rows>, publishedAt: Time, failure: QueryStatus, maxAge: int, now: Time,
    conversion: Float32 -> int32, dimension: int32, definitions: seq<DimensionDefinition>,
    actor: ClaimActor, chunkX: int32, chunkZ: int32, i: int, j: int, p: BlockPos)
    requires Backed(snapshot, rows) && Dated(snapshot, publishedAt) && snapshot.Some?
    requires Answer(snapshot, failure, maxAge, now) == Ready && Resolution(dimension, definitions).Some?
    requires AxisShared(chunkX) && AxisShared(chunkZ) && 0 <= i < 16 && 0 <= j < 16
    requires ColumnDrawn(conversion, snapshot.value.claims, Resolution(dimension, definitions).value, actor, chunkX, chunkZ, i, j)
    requires p.x as int == Column(chunkX, i) && p.z as int == Column(chunkZ, j)
    ensures Refusing(rows, publishedAt, maxAge, now, dimension, definitions, actor, BlockBreak, Position(BlockVector(p)))
  {
    hide Refusing, Dated, Buildable, BuiltFrom, ColumnDrawn, AxisShared, Answer, Resolution, Judge, ToFloat32, BlockVector,
      Policy.ClaimActionPermitted, Column;
    ShownDeniedIsJudged(snapshot.value, rows.value, conversion, dimension, definitions, actor, chunkX, chunkZ, i, j, p);
    VerdictOnPayload(snapshot, rows, publishedAt, failure, maxAge, now, conversion, dimension, definitions, actor, BlockBreak,
                     Position(BlockVector(p)));
  }

  /** Where the client is shown a deny block, no break reaches the server: the picture and the filter agree. */
  lemma ShownDeniedIsRefused(
    s: Session, border: Option<Area2D>, conversion: Float32 -> int32, name: string,
    chunkX: int32, chunkZ: int32, i: int, j: int, action: PlayerBlockAction, now: Time)
    requires s.Valid() && s.claimFactory != null && s.claimFactory.snapshot.Some? && s.claimPrefilter
    requires Answer(s.claimFactory.snapshot, s.claimFactory.failureStatus, s.claimFactory.maxSnapshotAge, now) == Ready
    requires Resolution(s.dimension, s.definitions) == Some(name)
    requires AxisShared(chunkX) && AxisShared(chunkZ) && 0 <= i < 16 && 0 <= j < 16
    requires ColumnDrawn(conversion, s.claimFactory.snapshot.value.claims, name, s.Actor(), chunkX, chunkZ, i, j)
    requires action.position.x as int == Column(chunkX, i) && action.position.z as int == Column(chunkZ, j)
    requires !action.kind.OtherAction?
    ensures Refuses(s, border, action, now)
  {
    hide Session.Valid, Refusing, Backed, Dated, ColumnDrawn, AxisShared, Answer, Resolution, ToFloat32, AtBorder, Column;
    var f := s.claimFactory;
    ValidIsBacked(s);
    ShownDeniedIsRefusing(f.snapshot, f.rows, f.publishedAt, f.failureStatus, f.maxSnapshotAge, now, conversion,
                          s.dimension, s.definitions, s.Actor(), chunkX, chunkZ, i, j, action.position);
  }

  lemma ValidIsBacked(s: Session)
    requires s.Valid() && s.claimFactory != null
    ensures Backed(s.claimFactory.snapshot, s.claimFactory.rows) && Dated(s.claimFactory.snapshot, s.claimFactory.publishedAt)
  {
    hide Backed, Dated;
  }
}
