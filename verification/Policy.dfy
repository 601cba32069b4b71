/**
 The claim policy: what an actor may do at a point of a claim, with no session or
 network state involved. Its laws relate the rendered deny blocks to what is enforced,
 and the stored copy of a claim to the row it was made from.
 */
module Policy {
  import opened Wrappers
  import opened Numbers
  import opened Dimensions
  import opened Claims

  datatype ClaimAction =
    | Render
    | BlockBreak
    | BlockPlace
    | BlockInteract
    | EntityInteract
    | EntityHurt
    | ItemRelease
    | ItemThrow
    | ItemDrop
    | Unlisted(code: nat)
  {
    /** The wire value: listed actions are 0 to 8. */
    function Code(): nat {
      match this
      case Render => 0
      case BlockBreak => 1
      case BlockPlace => 2
      case BlockInteract => 3
      case EntityInteract => 4
      case EntityHurt => 5
      case ItemRelease => 6
      case ItemThrow => 7
      case ItemDrop => 8
      case Unlisted(code) => 9 + code
    }
  }

  /** No two actions share a counter. */
  lemma ActionCodesDiffer(a: ClaimAction, b: ClaimAction)
    requires a.Code() == b.Code()
    ensures a == b
  {
  }

  /** The untyped `data` argument: a bare position, a position with a type id, or anything else. */
  datatype ActionData =
    | Position(position: Vector3)
    | Detailed(position: Vector3, typeID: string)
    | Malformed
  {
    /** The type id the policy sees; a bare position has none. */
    function TypeID(): string {
      if Detailed? then typeID else ""
    }
  }

  datatype ClaimActor = ClaimActor(xuid: string, operator: bool)

  predicate ClaimOwnerOrTrusted(cl: PlayerClaim, actor: ClaimActor) {
    cl.ownerXUID == actor.xuid || actor.xuid in cl.trustedXUIDs || actor.operator
  }

  predicate InsideRectangle(position: Vector3, a: Vector2, b: Vector2) {
    && AtMost(Min(a.x, b.x), position.x) && AtMost(position.x, Max(a.x, b.x))
    && AtMost(Min(a.z, b.z), position.z) && AtMost(position.z, Max(a.z, b.z))
  }

  function FeatureFrom(cl: PlayerClaim, feature: Feature): Vector2 {
    if feature.fromLocation.Some? then Vector2(feature.fromLocation.value.x, feature.fromLocation.value.z)
    else cl.location.pos1
  }

  function FeatureTo(cl: PlayerClaim, feature: Feature): Vector2 {
    if feature.toLocation.Some? then Vector2(feature.toLocation.value.x, feature.toLocation.value.z)
    else cl.location.pos2
  }

  predicate InsideFeatureColumn(cl: PlayerClaim, feature: Feature, position: Vector3) {
    InsideRectangle(position, FeatureFrom(cl, feature), FeatureTo(cl, feature))
  }

  predicate InsideFeature(cl: PlayerClaim, feature: Feature, position: Vector3) {
    && InsideFeatureColumn(cl, feature, position)
    && match (feature.fromLocation, feature.toLocation)
       case (Some(from), Some(to)) => AtMost(Min(from.y, to.y), position.y) && AtMost(position.y, Max(from.y, to.y))
       case (Some(from), None) => AtMost(from.y, position.y)
       case (None, Some(to)) => AtMost(position.y, to.y)
       case (None, None) => true
  }

  /** The filter that governs features of a given type; pick-up features have none. */
  function FilterFor(feature: Feature, featureType: FeatureType): TypeFilter {
    match featureType
    case Mineable | BlockPlaceable | BlockInteractable => feature.blockTypeIDs
    case EntityInteractable | EntityHurt => feature.entityTypeIDs
    case DropItems => feature.itemTypeIDs
    case _ => None
  }

  predicate FeatureAllowsType(feature: Feature, featureType: FeatureType, typeID: string) {
    typeID == "" || FilterFor(feature, featureType).None? || typeID in FilterFor(feature, featureType).value
  }

  /** One feature grants the action. */
  predicate Grants(cl: PlayerClaim, feature: Feature, featureType: FeatureType, data: ActionData)
    requires !data.Malformed?
  {
    && feature.featureType == featureType
    && InsideFeature(cl, feature, data.position)
    && FeatureAllowsType(feature, featureType, data.TypeID())
  }

  predicate PermittedInFeature(cl: PlayerClaim, data: ActionData, featureType: FeatureType) {
    data.Malformed? || exists i :: 0 <= i < |cl.features| && Grants(cl, cl.features[i], featureType, data)
  }

  predicate RemovesDenyBlock(feature: Feature) {
    feature.featureType == Mineable || feature.featureType == BlockPlaceable
  }

  /** Rendering looks at bare positions only. */
  predicate RenderPermitted(cl: PlayerClaim, data: ActionData) {
    !data.Position? ||
    exists i :: 0 <= i < |cl.features| && RemovesDenyBlock(cl.features[i])
                && InsideFeatureColumn(cl, cl.features[i], data.position)
  }

  const ADMIN_OWNER := "*"

  predicate AdminBlockInteractionAllowed(data: ActionData) {
    data.TypeID() in ["", "pokeb:pc", "pokeb:healing_machine", "pokeb:trade_machine", "minecraft:ender_chest"]
  }

  /** The policy decision. Malformed claims, anonymous actors and unlisted actions pass. */
  predicate ClaimActionPermitted(cl: PlayerClaim, actor: ClaimActor, action: ClaimAction, data: ActionData) {
    if !ValidClaim(cl) || actor.xuid == "" then true
    else if ClaimOwnerOrTrusted(cl, actor) then true
    else
      match action
      case Render => RenderPermitted(cl, data)
      case BlockBreak => PermittedInFeature(cl, data, Mineable)
      case BlockPlace => PermittedInFeature(cl, data, BlockPlaceable)
      case BlockInteract =>
        (cl.ownerXUID == ADMIN_OWNER && AdminBlockInteractionAllowed(data)) || PermittedInFeature(cl, data, BlockInteractable)
      case EntityInteract => cl.ownerXUID == ADMIN_OWNER || PermittedInFeature(cl, data, EntityInteractable)
      case EntityHurt => PermittedInFeature(cl, data, FeatureType.EntityHurt)
      case ItemDrop => cl.ownerXUID == ADMIN_OWNER || PermittedInFeature(cl, data, DropItems)
      case ItemRelease | ItemThrow | Unlisted(_) => true
  }

  // ---------------------------------------------------------------------------
  // Rendering against enforcement
  // ---------------------------------------------------------------------------

  /** Feature corners that are present are finite, as validation guarantees. */
  predicate FiniteFeatures(cl: PlayerClaim) {
    forall i :: 0 <= i < |cl.features| ==>
      && (cl.features[i].fromLocation.Some? ==> Finite3(cl.features[i].fromLocation.value))
      && (cl.features[i].toLocation.Some? ==> Finite3(cl.features[i].toLocation.value))
  }

  /** Breaking and placing are refused at every height of the column, whatever the block type. */
  ghost predicate ColumnClosed(cl: PlayerClaim, actor: ClaimActor, x: Float32, z: Float32) {
    forall y, data: ActionData | !data.Malformed? && data.position == Vector3(x, y, z) ::
      !ClaimActionPermitted(cl, actor, BlockBreak, data) && !ClaimActionPermitted(cl, actor, BlockPlace, data)
  }

  /** A height at which a feature is met, given that its column is. */
  function HeightIn(feature: Feature): Float32 {
    if feature.fromLocation.Some? then feature.fromLocation.value.y
    else if feature.toLocation.Some? then feature.toLocation.value.y
    else Finite(0.0)
  }

  lemma HeightIsInside(cl: PlayerClaim, feature: Feature, position: Vector3)
    requires InsideFeatureColumn(cl, feature, position)
    requires feature.fromLocation.Some? ==> Finite3(feature.fromLocation.value)
    requires feature.toLocation.Some? ==> Finite3(feature.toLocation.value)
    ensures InsideFeature(cl, feature, position.(y := HeightIn(feature)))
  {
  }

  /** A column shows a deny block exactly when nothing in it can be broken or placed by the viewer. */
  lemma RenderedDenyIsExact(cl: PlayerClaim, actor: ClaimActor, position: Vector3)
    requires FiniteFeatures(cl)
    ensures !ClaimActionPermitted(cl, actor, Render, Position(position)) <==>
            ColumnClosed(cl, actor, position.x, position.z)
  {
    if !ClaimActionPermitted(cl, actor, Render, Position(position)) {
      forall y, data: ActionData | !data.Malformed? && data.position == Vector3(position.x, y, position.z)
        ensures !ClaimActionPermitted(cl, actor, BlockBreak, data) && !ClaimActionPermitted(cl, actor, BlockPlace, data)
      {
        NoFeatureInColumn(cl, position, data, Mineable);
        NoFeatureInColumn(cl, position, data, BlockPlaceable);
      }
    } else if ValidClaim(cl) && actor.xuid != "" && !ClaimOwnerOrTrusted(cl, actor) {
      var i :| 0 <= i < |cl.features| && RemovesDenyBlock(cl.features[i]) && InsideFeatureColumn(cl, cl.features[i], position);
      var feature := cl.features[i];
      HeightIsInside(cl, feature, position);
      var data := Position(position.(y := HeightIn(feature)));
      assert Grants(cl, cl.features[i], feature.featureType, data);
      assert data.position == Vector3(position.x, HeightIn(feature), position.z);
    } else {
      assert ClaimActionPermitted(cl, actor, BlockBreak, Position(position));
      assert Position(position).position == Vector3(position.x, position.y, position.z);
    }
  }

  lemma NoFeatureInColumn(cl: PlayerClaim, position: Vector3, data: ActionData, featureType: FeatureType)
    requires !RenderPermitted(cl, Position(position))
    requires !data.Malformed? && data.position.x == position.x && data.position.z == position.z
    requires featureType == Mineable || featureType == BlockPlaceable
    ensures !PermittedInFeature(cl, data, featureType)
  {
    forall i | 0 <= i < |cl.features| ensures !Grants(cl, cl.features[i], featureType, data) {
      if RemovesDenyBlock(cl.features[i]) {
        assert !InsideFeatureColumn(cl, cl.features[i], position);
      }
    }
  }

  // ---------------------------------------------------------------------------
  // Privilege and growth
  // ---------------------------------------------------------------------------

  /** `wider` trusts everybody and has every feature that `cl` has. */
  ghost predicate Widens(wider: PlayerClaim, cl: PlayerClaim) {
    && wider.id == cl.id && wider.ownerXUID == cl.ownerXUID && wider.location == cl.location
    && (forall xuid :: xuid in cl.trustedXUIDs ==> xuid in wider.trustedXUIDs)
    && (forall i :: 0 <= i < |cl.features| ==> cl.features[i] in wider.features)
  }

  /** Adding trusted players or features never takes a permission away. */
  lemma PolicyIsMonotone(cl: PlayerClaim, wider: PlayerClaim, actor: ClaimActor, action: ClaimAction, data: ActionData)
    requires Widens(wider, cl) && ClaimActionPermitted(cl, actor, action, data)
    ensures ClaimActionPermitted(wider, actor, action, data)
  {
    hide InsideFeature, InsideFeatureColumn, FeatureAllowsType;
    if !data.Malformed? {
      forall i, t | 0 <= i < |cl.features| && Grants(cl, cl.features[i], t, data)
        ensures PermittedInFeature(wider, data, t)
      {
        SameLocationSameColumn(cl, wider, cl.features[i], data.position);
        var j :| 0 <= j < |wider.features| && wider.features[j] == cl.features[i];
        assert Grants(wider, wider.features[j], t, data);
      }
      forall i | 0 <= i < |cl.features| && RemovesDenyBlock(cl.features[i]) && InsideFeatureColumn(cl, cl.features[i], data.position)
        ensures RenderPermitted(wider, data)
      {
        SameLocationSameColumn(cl, wider, cl.features[i], data.position);
        var j :| 0 <= j < |wider.features| && wider.features[j] == cl.features[i];
        assert RemovesDenyBlock(wider.features[j]);
      }
    }
  }

  lemma SameLocationSameColumn(a: PlayerClaim, b: PlayerClaim, feature: Feature, position: Vector3)
    requires a.location.pos1 == b.location.pos1 && a.location.pos2 == b.location.pos2
    ensures InsideFeatureColumn(a, feature, position) == InsideFeatureColumn(b, feature, position)
    ensures InsideFeature(a, feature, position) == InsideFeature(b, feature, position)
  {
  }

  // ---------------------------------------------------------------------------
  // The stored copy against its row
  // ---------------------------------------------------------------------------

  /** The row with only its id and dimension defaulted: what the policy is meant to judge. */
  function Defaulted(key: string, source: PlayerClaim): PlayerClaim {
    source.(
      id := EffectiveId(key, source),
      location := source.location.(dimension := CanonicalDimension(source.location.dimension).0))
  }

  /** The feature type an action needs, if the policy enforces it through features. */
  function NeededFeature(action: ClaimAction): Option<FeatureType> {
    match action
    case BlockBreak => Some(Mineable)
    case BlockPlace => Some(BlockPlaceable)
    case BlockInteract => Some(BlockInteractable)
    case EntityInteract => Some(EntityInteractable)
    case EntityHurt => Some(FeatureType.EntityHurt)
    case ItemDrop => Some(DropItems)
    case Render | ItemRelease | ItemThrow | Unlisted(_) => None
  }

  /** The typed request falls inside a feature of the needed type whose filter is present but empty. */
  ghost predicate MeetsEmptyFilter(source: PlayerClaim, action: ClaimAction, data: ActionData) {
    && NeededFeature(action).Some? && !data.Malformed? && data.TypeID() != ""
    && exists i :: 0 <= i < |source.features|
                   && source.features[i].featureType == NeededFeature(action).value
                   && InsideFeature(source, source.features[i], data.position)
                   && FilterFor(source.features[i], NeededFeature(action).value) == Some([])
  }

  lemma CloneAllowsType(feature: Feature, featureType: FeatureType, typeID: string)
    ensures FeatureAllowsType(CloneFeature(feature), featureType, typeID) <==>
            FeatureAllowsType(feature, featureType, typeID) || (typeID != "" && FilterFor(feature, featureType) == Some([]))
  {
  }

  lemma {:induction false} CloneInFeature(key: string, source: PlayerClaim, data: ActionData, featureType: FeatureType)
    requires !data.Malformed?
    ensures PermittedInFeature(Stored(key, source), data, featureType) <==>
            PermittedInFeature(Defaulted(key, source), data, featureType)
            || exists i :: 0 <= i < |source.features| && data.TypeID() != ""
                           && source.features[i].featureType == featureType
                           && InsideFeature(source, source.features[i], data.position)
                           && FilterFor(source.features[i], featureType) == Some([])
  {
    hide CanonicalDimension, InsideFeature, InsideFeatureColumn, FeatureAllowsType, FilterFor;
    var stored, plain := Stored(key, source), Defaulted(key, source);
    forall i | 0 <= i < |source.features|
      ensures Grants(stored, stored.features[i], featureType, data) <==>
              Grants(plain, plain.features[i], featureType, data)
              || (data.TypeID() != "" && source.features[i].featureType == featureType
                  && InsideFeature(source, source.features[i], data.position)
                  && FilterFor(source.features[i], featureType) == Some([]))
    {
      CloneAllowsType(source.features[i], featureType, data.TypeID());
      CloneKeepsPlace(key, source, i, data.position);
    }
  }

  lemma CloneKeepsPlace(key: string, source: PlayerClaim, i: nat, position: Vector3)
    requires i < |source.features|
    ensures InsideFeature(Stored(key, source), Stored(key, source).features[i], position) ==
            InsideFeature(source, source.features[i], position)
    ensures InsideFeature(Defaulted(key, source), source.features[i], position) ==
            InsideFeature(source, source.features[i], position)
    ensures InsideFeatureColumn(Stored(key, source), Stored(key, source).features[i], position) ==
            InsideFeatureColumn(Defaulted(key, source), source.features[i], position)
  {
    hide CanonicalDimension;
  }

  lemma CloneRenders(key: string, source: PlayerClaim, data: ActionData)
    ensures RenderPermitted(Stored(key, source), data) == RenderPermitted(Defaulted(key, source), data)
  {
    hide CanonicalDimension, InsideFeatureColumn;
    if data.Position? {
      forall i | 0 <= i < |source.features|
        ensures InsideFeatureColumn(Stored(key, source), Stored(key, source).features[i], data.position) ==
                InsideFeatureColumn(Defaulted(key, source), source.features[i], data.position)
        ensures RemovesDenyBlock(Stored(key, source).features[i]) == RemovesDenyBlock(source.features[i])
      {
        CloneKeepsPlace(key, source, i, data.position);
      }
    }
  }

  /**
   The stored copy of an accepted row permits exactly what the row permits, plus the
   typed requests that fall inside a feature whose type filter is present but empty.
   */
  lemma CloneWidensExactly(key: string, source: PlayerClaim, actor: ClaimActor, action: ClaimAction, data: ActionData)
    requires Acceptable(key, source)
    ensures ClaimActionPermitted(Stored(key, source), actor, action, data) <==>
            ClaimActionPermitted(Defaulted(key, source), actor, action, data) || MeetsEmptyFilter(source, action, data)
  {
    hide CanonicalDimension, InsideFeature, InsideFeatureColumn, FeatureAllowsType, FilterFor, PermittedInFeature,
      RenderPermitted, AdminBlockInteractionAllowed;
    StoredIsWellFormed(key, source);
    CloneRenders(key, source, data);
    if NeededFeature(action).Some? {
      if data.Malformed? {
        PermitsMalformed(Stored(key, source), data, NeededFeature(action).value);
        PermitsMalformed(Defaulted(key, source), data, NeededFeature(action).value);
      } else {
        CloneInFeature(key, source, data, NeededFeature(action).value);
      }
    }
  }

  /** A row the service may send: one feature for breaking, with a type filter that lists nothing. */
  function NothingListed(): PlayerClaim {
    var corner := Vector2(Finite(0.0), Finite(0.0));
    PlayerClaim("c", "owner", Location(OVERWORLD, corner, corner), [Feature(Mineable, None, None, Some([]), None, None)], [])
  }

  /** The exception happens: the row refuses a visitor's typed break that its stored copy permits. */
  lemma CloneWidensSomeRow()
    ensures var row, visitor := NothingListed(), ClaimActor("visitor", false);
            var data := Detailed(Vector3(Finite(0.0), Finite(0.0), Finite(0.0)), "minecraft:stone");
            && Acceptable("c", row)
            && !ClaimActionPermitted(Defaulted("c", row), visitor, BlockBreak, data)
            && ClaimActionPermitted(Stored("c", row), visitor, BlockBreak, data)
  {
    hide CanonicalDimension, OVERWORLD;
    var row, visitor := NothingListed(), ClaimActor("visitor", false);
    var data := Detailed(Vector3(Finite(0.0), Finite(0.0), Finite(0.0)), "minecraft:stone");
    NamespacedVanilla();
    assert ValidateFeature(row.id, row.features[0]).None?;
    assert Acceptable("c", row);
    StoredIsWellFormed("c", row);
    CloneWidensExactly("c", row, visitor, BlockBreak, data);
    assert InsideFeature(row, row.features[0], data.position);
    assert MeetsEmptyFilter(row, BlockBreak, data);
  }

  lemma PermitsMalformed(cl: PlayerClaim, data: ActionData, featureType: FeatureType)
    requires data.Malformed?
    ensures PermittedInFeature(cl, data, featureType)
  {
  }
}
