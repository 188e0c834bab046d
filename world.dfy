/** What the chain reads from the host engine, and the anchor datatype that
    replaces the source's `Func<Vector2>` endpoint getters. */
module World {
  import opened Vectors

  datatype Option<+T> = None | Some(value: T)

  /** Handle of a solid in the scene. */
  type BodyId = nat

  /** Where an endpoint is held: nowhere (`null` getter), at a fixed point
      (a getter returning a captured position), or at a constant offset from a
      solid's current position (`() => solid.Position + offset`). */
  datatype Anchor = Free | Fixed(point: Vec) | Tracking(body: BodyId, offset: Vec)

  /** The host services the chain uses, as values for one call:
      `dt` is `Engine.DeltaTime`, `wind` is the level's wind, `bodyPos` gives
      every solid's current `Position`, `collideFirst(p)` is the first solid
      overlapping the 4x4 probe square the source builds around `p`, and
      `normalize` is `Vector2.Normalize`. */
  datatype Host = Host(
    dt: real,
    wind: Vec,
    bodyPos: BodyId -> Vec,
    collideFirst: Vec -> Option<BodyId>,
    normalize: Vec -> Vec)

  ghost predicate WellFormed(host: Host)
  {
    IsNormalizer(host.normalize)
  }

  /** The player as the chain sees it: its speed and its hitbox test. */
  datatype Player = Player(speed: Vec, collidePoint: Vec -> bool)

  /** The value the endpoint getter returns. */
  function AnchorPos(a: Anchor, bodyPos: BodyId -> Vec): Vec
    requires !a.Free?
  {
    match a
    case Fixed(p) => p
    case Tracking(b, offset) => Add(bodyPos(b), offset)
  }

  /** The anchor an endpoint gets when the probe around it found `found`:
      free when nothing was found, otherwise bound to the solid with the offset
      that makes the anchor coincide with the endpoint at binding time. */
  function Bind(found: Option<BodyId>, endpoint: Vec, bodyPos: BodyId -> Vec): (a: Anchor)
    ensures a.Free? <==> found.None?
    ensures found.Some? ==> a.Tracking? && a.body == found.value && AnchorPos(a, bodyPos) == endpoint
  {
    match found
    case None => Free
    case Some(solid) => Tracking(solid, Sub(endpoint, bodyPos(solid)))
  }

  /** A tracking anchor moves exactly as its solid does between two snapshots. */
  lemma TrackingFollowsBody(a: Anchor, before: BodyId -> Vec, after: BodyId -> Vec)
    requires a.Tracking?
    ensures Sub(AnchorPos(a, after), AnchorPos(a, before)) == Sub(after(a.body), before(a.body))
  {
  }
}
