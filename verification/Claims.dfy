/** The claim payload: what the claims service sends, and when it is acceptable. */
module Claims {
  import opened Wrappers
  import opened Numbers
  import opened Dimensions

  datatype Vector2 = Vector2(x: Float32, z: Float32)
  datatype Vector3 = Vector3(x: Float32, y: Float32, z: Float32)

  datatype FeatureType =
    | Mineable
    | BlockPlaceable
    | BlockInteractable
    | EntityInteractable
    | EntityHurt
    | DropItems
    | PickupItems
    | Unknown(name: string)

  /** A nil type filter permits every type; a present one permits what it lists. */
  type TypeFilter = Option<seq<string>>

  datatype Feature = Feature(
    featureType: FeatureType,
    fromLocation: Option<Vector3>,
    toLocation: Option<Vector3>,
    blockTypeIDs: TypeFilter,
    entityTypeIDs: TypeFilter,
    itemTypeIDs: TypeFilter)

  datatype Location = Location(dimension: string, pos1: Vector2, pos2: Vector2)

  datatype PlayerClaim = PlayerClaim(
    id: string,
    ownerXUID: string,
    location: Location,
    features: seq<Feature>,
    trustedXUIDs: seq<string>)

  datatype ClaimError =
    | MissingIdOrOwner(key: string)
    | InvalidDimension(id: string)
    | NonFiniteBounds(id: string)
    | UnsupportedFeature(id: string)
    | NonFiniteFeature(id: string)

  predicate Finite2(v: Vector2) {
    v.x.Finite? && v.z.Finite?
  }

  predicate Finite3(v: Vector3) {
    v.x.Finite? && v.y.Finite? && v.z.Finite?
  }

  /** The id a claim is indexed under: its own, or its row key when it has none. */
  function EffectiveId(key: string, source: PlayerClaim): string {
    if source.id == "" then key else source.id
  }

  function ValidateFeature(id: string, feature: Feature): Option<ClaimError> {
    if feature.featureType.Unknown? then Some(UnsupportedFeature(id))
    else if feature.fromLocation.Some? && !Finite3(feature.fromLocation.value) then Some(NonFiniteFeature(id))
    else if feature.toLocation.Some? && !Finite3(feature.toLocation.value) then Some(NonFiniteFeature(id))
    else None
  }

  /** `append([]string(nil), filter...)`: a present but empty filter comes back nil. */
  function CloneFilter(filter: TypeFilter): TypeFilter {
    if filter == Some([]) then None else filter
  }

  function CloneFeature(source: Feature): Feature {
    source.(
      blockTypeIDs := CloneFilter(source.blockTypeIDs),
      entityTypeIDs := CloneFilter(source.entityTypeIDs),
      itemTypeIDs := CloneFilter(source.itemTypeIDs))
  }

  /** Everything `CloneAndValidateClaim` checks about a row. */
  predicate Acceptable(key: string, source: PlayerClaim) {
    && EffectiveId(key, source) != ""
    && source.ownerXUID != ""
    && CanonicalDimension(source.location.dimension).1
    && Finite2(source.location.pos1) && Finite2(source.location.pos2)
    && forall i :: 0 <= i < |source.features| ==> ValidateFeature(source.id, source.features[i]).None?
  }

  /** The claim as it is stored: id and dimension defaulted, features cloned one by one. */
  function Stored(key: string, source: PlayerClaim): (cl: PlayerClaim)
    ensures |cl.features| == |source.features|
  {
    source.(
      id := EffectiveId(key, source),
      location := source.location.(dimension := CanonicalDimension(source.location.dimension).0),
      features := seq(|source.features|, i requires 0 <= i < |source.features| => CloneFeature(source.features[i])))
  }

  /** A feature of a known type whose corners, where it has them, are finite. */
  predicate WellPlaced(f: Feature) {
    && !f.featureType.Unknown?
    && (f.fromLocation.Some? ==> f.fromLocation.value.x.Finite? && f.fromLocation.value.y.Finite? && f.fromLocation.value.z.Finite?)
    && (f.toLocation.Some? ==> f.toLocation.value.x.Finite? && f.toLocation.value.y.Finite? && f.toLocation.value.z.Finite?)
  }

  /** The same filter, except that one of nothing is lost. */
  predicate CopiesFilter(copy: TypeFilter, filter: TypeFilter) {
    if filter.Some? && |filter.value| > 0 then copy == filter else copy.None?
  }

  predicate CopiesFeature(copy: Feature, f: Feature) {
    && copy.featureType == f.featureType && copy.fromLocation == f.fromLocation && copy.toLocation == f.toLocation
    && CopiesFilter(copy.blockTypeIDs, f.blockTypeIDs) && CopiesFilter(copy.entityTypeIDs, f.entityTypeIDs)
    && CopiesFilter(copy.itemTypeIDs, f.itemTypeIDs)
  }

  /** Field by field: everything as in the row, but the id defaulted and the dimension normalised. */
  predicate CopiesRow(cl: PlayerClaim, key: string, source: PlayerClaim) {
    && (source.id != "" ==> cl.id == source.id) && (source.id == "" ==> cl.id == key)
    && cl.ownerXUID == source.ownerXUID && cl.trustedXUIDs == source.trustedXUIDs
    && cl.location.pos1 == source.location.pos1 && cl.location.pos2 == source.location.pos2
    && cl.location.dimension == CanonicalDimension(source.location.dimension).0
    && |cl.features| == |source.features|
    && forall i :: 0 <= i < |cl.features| ==> CopiesFeature(cl.features[i], source.features[i])
  }

  lemma ValidatedAreWellPlaced(source: PlayerClaim)
    ensures forall i :: 0 <= i < |source.features| ==>
              (ValidateFeature(source.id, source.features[i]).None? <==> WellPlaced(source.features[i]))
  {
  }

  /** Validates one row and copies it, feature by feature. */
  method CloneAndValidateClaim(key: string, source: PlayerClaim) returns (r: Result<PlayerClaim, ClaimError>)
    ensures r.Success? <==> Acceptable(key, source)
    ensures r.Success? ==> r.value == Stored(key, source)
    ensures r.Success? <==>
              && (source.id != "" || key != "") && source.ownerXUID != "" && CanonicalDimension(source.location.dimension).1
              && source.location.pos1.x.Finite? && source.location.pos1.z.Finite?
              && source.location.pos2.x.Finite? && source.location.pos2.z.Finite?
              && forall i :: 0 <= i < |source.features| ==> WellPlaced(source.features[i])
    ensures r.Success? ==> CopiesRow(r.value, key, source)
  {
    hide CanonicalDimension;
    ValidatedAreWellPlaced(source);
    var id := if source.id == "" then key else source.id;
    if id == "" || source.ownerXUID == "" {
      return Failure(MissingIdOrOwner(key));
    }
    var (dimension, ok) := CanonicalDimension(source.location.dimension);
    if !ok {
      return Failure(InvalidDimension(id));
    }
    if !Finite2(source.location.pos1) || !Finite2(source.location.pos2) {
      return Failure(NonFiniteBounds(id));
    }
    var features: seq<Feature> := [];
    for n := 0 to |source.features|
      invariant |features| == n
      invariant forall i :: 0 <= i < n ==> ValidateFeature(source.id, source.features[i]).None?
      invariant forall i :: 0 <= i < n ==> features[i] == CloneFeature(source.features[i])
    {
      var problem := ValidateFeature(id, source.features[n]);
      if problem.Some? {
        assert ValidateFeature(source.id, source.features[n]).Some?;
        return Failure(problem.value);
      }
      features := features + [CloneFeature(source.features[n])];
    }
    var cl := source.(
      id := id,
      location := source.location.(dimension := dimension),
      features := features);
    assert cl.features == Stored(key, source).features;
    return Success(cl);
  }

  /** A claim the policy refuses to evaluate: one with no id, owner or dimension. */
  predicate ValidClaim(cl: PlayerClaim) {
    cl.id != "" && cl.ownerXUID != "" && cl.location.dimension != ""
  }

  /** Storing an accepted row gives a claim that is valid, finite and canonically named. */
  lemma StoredIsWellFormed(key: string, source: PlayerClaim)
    requires Acceptable(key, source)
    ensures ValidClaim(Stored(key, source))
    ensures Finite2(Stored(key, source).location.pos1) && Finite2(Stored(key, source).location.pos2)
    ensures CanonicalDimension(Stored(key, source).location.dimension) == (Stored(key, source).location.dimension, true)
  {
    CanonicalIsFixedPoint(source.location.dimension);
    CanonicalIsNotEmpty(source.location.dimension);
    hide CanonicalDimension;
  }
}
