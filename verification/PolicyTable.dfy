/**
 The claim policy as a table over the fields of a claim: who may do what, where, and with
 which block, entity or item. The layered decision of `Policy` is proved to be this table.
 */
module PolicyTables {
  import opened Wrappers
  import opened Numbers
  import opened Dimensions
  import opened Claims
  import opened Policy

  // ---------------------------------------------------------------------------
  // One feature
  // ---------------------------------------------------------------------------

  /** The block column at x, z lies between the feature's corners; a corner it lacks is the claim's. */
  predicate SpansColumn(cl: PlayerClaim, f: Feature, x: Float32, z: Float32)
    requires FiniteClaim(cl) && FiniteFeature(f)
  {
    && x.Finite? && z.Finite?
    && Between(if f.fromLocation.Some? then f.fromLocation.value.x.value else cl.location.pos1.x.value,
               if f.toLocation.Some? then f.toLocation.value.x.value else cl.location.pos2.x.value, x.value)
    && Between(if f.fromLocation.Some? then f.fromLocation.value.z.value else cl.location.pos1.z.value,
               if f.toLocation.Some? then f.toLocation.value.z.value else cl.location.pos2.z.value, z.value)
  }

  /** The height lies between two corners, above a lone first one, below a lone second one, anywhere without any. */
  predicate SpansHeight(f: Feature, y: Float32)
    requires FiniteFeature(f)
  {
    match (f.fromLocation, f.toLocation)
    case (Some(a), Some(b)) => y.Finite? && Between(a.y.value, b.y.value, y.value)
    case (Some(a), None) => y == Infinite(false) || (y.Finite? && a.y.value <= y.value)
    case (None, Some(b)) => y == Infinite(true) || (y.Finite? && y.value <= b.y.value)
    case (None, None) => true
  }

  predicate FiniteClaim(cl: PlayerClaim) {
    cl.location.pos1.x.Finite? && cl.location.pos1.z.Finite? && cl.location.pos2.x.Finite? && cl.location.pos2.z.Finite?
  }

  predicate FiniteFeature(f: Feature) {
    && (f.fromLocation.Some? ==> f.fromLocation.value.x.Finite? && f.fromLocation.value.y.Finite? && f.fromLocation.value.z.Finite?)
    && (f.toLocation.Some? ==> f.toLocation.value.x.Finite? && f.toLocation.value.y.Finite? && f.toLocation.value.z.Finite?)
  }

  predicate FiniteThroughout(cl: PlayerClaim) {
    FiniteClaim(cl) && forall i :: 0 <= i < |cl.features| ==> FiniteFeature(cl.features[i])
  }

  /** The filter lists the type, or there is no filter, or no type; `emptyPermits` reads a filter of nothing as none. */
  predicate ListsType(filter: TypeFilter, data: ActionData, emptyPermits: bool) {
    || data.Position? || (data.Detailed? && data.typeID == "")
    || filter.None? || (emptyPermits && filter == Some([]))
    || (data.Detailed? && data.typeID in filter.value)
  }

  /** Some feature of the kind spans the position, with a filter that lets the type pass. */
  ghost predicate HasFeature(cl: PlayerClaim, kind: FeatureType, filter: Feature -> TypeFilter, data: ActionData, emptyPermits: bool)
    requires FiniteThroughout(cl)
  {
    data.Malformed? ||
    exists i :: 0 <= i < |cl.features|
                && cl.features[i].featureType == kind
                && SpansColumn(cl, cl.features[i], data.position.x, data.position.z) && SpansHeight(cl.features[i], data.position.y)
                && ListsType(filter(cl.features[i]), data, emptyPermits)
  }

  // ---------------------------------------------------------------------------
  // The table
  // ---------------------------------------------------------------------------

  /** What the owner, a trusted player, an operator, a nameless actor and everybody else may do. */
  ghost predicate Allowed(cl: PlayerClaim, actor: ClaimActor, action: ClaimAction, data: ActionData, emptyPermits: bool)
    requires FiniteThroughout(cl)
  {
    || actor.xuid == "" || actor.operator
    || actor.xuid == cl.ownerXUID || (exists i :: 0 <= i < |cl.trustedXUIDs| && cl.trustedXUIDs[i] == actor.xuid)
    || match action
       case BlockBreak => HasFeature(cl, Mineable, (f: Feature) => f.blockTypeIDs, data, emptyPermits)
       case BlockPlace => HasFeature(cl, BlockPlaceable, (f: Feature) => f.blockTypeIDs, data, emptyPermits)
       case BlockInteract =>
         || HasFeature(cl, BlockInteractable, (f: Feature) => f.blockTypeIDs, data, emptyPermits)
         || (cl.ownerXUID == "*"
             && (data.Detailed? ==>
                   || data.typeID == "" || data.typeID == "pokeb:pc" || data.typeID == "pokeb:healing_machine"
                   || data.typeID == "pokeb:trade_machine" || data.typeID == "minecraft:ender_chest"))
       case EntityInteract =>
         cl.ownerXUID == "*" || HasFeature(cl, EntityInteractable, (f: Feature) => f.entityTypeIDs, data, emptyPermits)
       case EntityHurt => HasFeature(cl, FeatureType.EntityHurt, (f: Feature) => f.entityTypeIDs, data, emptyPermits)
       case ItemDrop => cl.ownerXUID == "*" || HasFeature(cl, DropItems, (f: Feature) => f.itemTypeIDs, data, emptyPermits)
       case Render =>
         !data.Position? ||
         exists i :: 0 <= i < |cl.features| && (cl.features[i].featureType == Mineable || cl.features[i].featureType == BlockPlaceable)
                     && SpansColumn(cl, cl.features[i], data.position.x, data.position.z)
       case ItemRelease | ItemThrow | Unlisted(_) => true
  }

  // ---------------------------------------------------------------------------
  // The policy is the table
  // ---------------------------------------------------------------------------

  lemma ColumnIsSpanned(cl: PlayerClaim, f: Feature, position: Vector3)
    requires FiniteClaim(cl) && FiniteFeature(f)
    ensures InsideFeatureColumn(cl, f, position) <==> SpansColumn(cl, f, position.x, position.z)
  {
  }

  lemma FeatureIsSpanned(cl: PlayerClaim, f: Feature, position: Vector3)
    requires FiniteClaim(cl) && FiniteFeature(f)
    ensures InsideFeature(cl, f, position) <==> SpansColumn(cl, f, position.x, position.z) && SpansHeight(f, position.y)
  {
    ColumnIsSpanned(cl, f, position);
    hide SpansColumn, InsideFeatureColumn;
  }

  lemma FeaturesAgree(cl: PlayerClaim, kind: FeatureType, filter: Feature -> TypeFilter, data: ActionData)
    requires FiniteThroughout(cl)
    requires forall f :: FilterFor(f, kind) == filter(f)
    ensures PermittedInFeature(cl, data, kind) <==> HasFeature(cl, kind, filter, data, false)
  {
    hide InsideFeature, SpansColumn, SpansHeight, FilterFor, FiniteClaim, FiniteFeature;
    if !data.Malformed? {
      forall i | 0 <= i < |cl.features|
        ensures Grants(cl, cl.features[i], kind, data) <==>
                && cl.features[i].featureType == kind
                && SpansColumn(cl, cl.features[i], data.position.x, data.position.z) && SpansHeight(cl.features[i], data.position.y)
                && ListsType(filter(cl.features[i]), data, false)
      {
        FeatureIsSpanned(cl, cl.features[i], data.position);
        assert FilterFor(cl.features[i], kind) == filter(cl.features[i]);
      }
    }
  }

  lemma RenderAgrees(cl: PlayerClaim, data: ActionData)
    requires FiniteThroughout(cl)
    ensures RenderPermitted(cl, data) <==>
              !data.Position? ||
              exists i :: 0 <= i < |cl.features| && (cl.features[i].featureType == Mineable || cl.features[i].featureType == BlockPlaceable)
                          && SpansColumn(cl, cl.features[i], data.position.x, data.position.z)
  {
    hide InsideFeatureColumn, SpansColumn, FiniteClaim, FiniteFeature;
    forall i | 0 <= i < |cl.features| && data.Position?
      ensures InsideFeatureColumn(cl, cl.features[i], data.position) <==> SpansColumn(cl, cl.features[i], data.position.x, data.position.z)
    {
      ColumnIsSpanned(cl, cl.features[i], data.position);
    }
  }

  /** The policy permits what the table allows, and everything on a claim without id, owner or dimension. */
  lemma PermittedIffAllowed(cl: PlayerClaim, actor: ClaimActor, action: ClaimAction, data: ActionData)
    requires FiniteThroughout(cl)
    ensures ClaimActionPermitted(cl, actor, action, data) <==>
              cl.id == "" || cl.ownerXUID == "" || cl.location.dimension == "" || Allowed(cl, actor, action, data, false)
  {
    hide FiniteThroughout, HasFeature, PermittedInFeature, RenderPermitted;
    match action
    case BlockBreak => FeaturesAgree(cl, Mineable, (f: Feature) => f.blockTypeIDs, data);
    case BlockPlace => FeaturesAgree(cl, BlockPlaceable, (f: Feature) => f.blockTypeIDs, data);
    case BlockInteract => FeaturesAgree(cl, BlockInteractable, (f: Feature) => f.blockTypeIDs, data);
    case EntityInteract => FeaturesAgree(cl, EntityInteractable, (f: Feature) => f.entityTypeIDs, data);
    case EntityHurt => FeaturesAgree(cl, FeatureType.EntityHurt, (f: Feature) => f.entityTypeIDs, data);
    case ItemDrop => FeaturesAgree(cl, DropItems, (f: Feature) => f.itemTypeIDs, data);
    case Render => RenderAgrees(cl, data);
    case ItemRelease | ItemThrow | Unlisted(_) =>
  }

  // ---------------------------------------------------------------------------
  // Down to the rows
  // ---------------------------------------------------------------------------

  lemma AcceptableIsFinite(key: string, row: PlayerClaim)
    requires Acceptable(key, row)
    ensures FiniteThroughout(row) && FiniteThroughout(Stored(key, row))
  {
    hide CanonicalDimension;
    forall i | 0 <= i < |row.features| ensures FiniteFeature(row.features[i]) && FiniteFeature(Stored(key, row).features[i]) {
      assert ValidateFeature(row.id, row.features[i]).None?;
    }
  }

  lemma StoredHasFeature(
    key: string, row: PlayerClaim, kind: FeatureType, filter: Feature -> TypeFilter, data: ActionData)
    requires FiniteThroughout(row) && FiniteThroughout(Stored(key, row))
    requires forall f :: filter(CloneFeature(f)) == CloneFilter(filter(f))
    ensures HasFeature(Stored(key, row), kind, filter, data, false) <==> HasFeature(row, kind, filter, data, true)
  {
    hide CanonicalDimension, Between, FiniteClaim, FiniteFeature;
    var stored := Stored(key, row);
    if !data.Malformed? {
      forall i | 0 <= i < |row.features|
        ensures SpansColumn(stored, stored.features[i], data.position.x, data.position.z)
             == SpansColumn(row, row.features[i], data.position.x, data.position.z)
        ensures SpansHeight(stored.features[i], data.position.y) == SpansHeight(row.features[i], data.position.y)
        ensures ListsType(filter(stored.features[i]), data, false) == ListsType(filter(row.features[i]), data, true)
      {
        assert stored.features[i] == CloneFeature(row.features[i]);
      }
      hide SpansColumn, SpansHeight, ListsType;
      assert forall i :: 0 <= i < |row.features| ==> stored.features[i].featureType == row.features[i].featureType;
    }
  }

  lemma StoredRenders(key: string, row: PlayerClaim, actor: ClaimActor, data: ActionData)
    requires FiniteThroughout(row) && FiniteThroughout(Stored(key, row))
    ensures Allowed(Stored(key, row), actor, Render, data, false) <==> Allowed(row, actor, Render, data, true)
  {
    hide CanonicalDimension, Between, FiniteClaim, FiniteFeature;
    var stored := Stored(key, row);
    if data.Position? {
      forall i | 0 <= i < |row.features|
        ensures SpansColumn(stored, stored.features[i], data.position.x, data.position.z)
             == SpansColumn(row, row.features[i], data.position.x, data.position.z)
        ensures stored.features[i].featureType == row.features[i].featureType
      {
        assert stored.features[i] == CloneFeature(row.features[i]);
      }
    }
  }

  /** The stored copy of an accepted row permits what the table allows on the row itself, reading a filter of nothing as none. */
  lemma StoredPermitsIffAllowed(key: string, row: PlayerClaim, actor: ClaimActor, action: ClaimAction, data: ActionData)
    requires Acceptable(key, row)
    ensures FiniteThroughout(row)
    ensures ClaimActionPermitted(Stored(key, row), actor, action, data) <==> Allowed(row, actor, action, data, true)
  {
    var stored := Stored(key, row);
    AcceptableIsFinite(key, row);
    StoredIsWellFormed(key, row);
    assert stored.ownerXUID == row.ownerXUID && stored.trustedXUIDs == row.trustedXUIDs;
    hide Stored, Acceptable, CanonicalDimension, FiniteThroughout, HasFeature, ClaimActionPermitted;
    PermittedIffAllowed(stored, actor, action, data);
    match action
    case BlockBreak => StoredHasFeature(key, row, Mineable, (f: Feature) => f.blockTypeIDs, data);
    case BlockPlace => StoredHasFeature(key, row, BlockPlaceable, (f: Feature) => f.blockTypeIDs, data);
    case BlockInteract => StoredHasFeature(key, row, BlockInteractable, (f: Feature) => f.blockTypeIDs, data);
    case EntityInteract => StoredHasFeature(key, row, EntityInteractable, (f: Feature) => f.entityTypeIDs, data);
    case EntityHurt => StoredHasFeature(key, row, FeatureType.EntityHurt, (f: Feature) => f.entityTypeIDs, data);
    case ItemDrop => StoredHasFeature(key, row, DropItems, (f: Feature) => f.itemTypeIDs, data);
    case Render => StoredRenders(key, row, actor, data);
    case ItemRelease | ItemThrow | Unlisted(_) =>
  }
}
