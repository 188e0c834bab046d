/** One simulated point of a chain (`ChainNode` in the source). The source's
    type is a struct whose methods update its own fields; as a value type it is
    modelled by a datatype whose members return the updated value, and the chain
    stores the result back into its array slot. */
module Nodes {
  import opened Vectors

  /** Factor turning a positional correction into next-tick acceleration. */
  const ReboundFactor: real := 210.0

  datatype ChainNode = ChainNode(pos: Vec, vel: Vec, acc: Vec)
  {
    /** Semi-implicit Euler step: the velocity takes the pending acceleration
        first, the position then moves with the new velocity, and the pending
        acceleration is consumed. */
    function UpdateStep(dt: real): (r: ChainNode)
      ensures r.acc == Zero
      ensures Sub(r.vel, vel) == Scale(acc, dt)
      ensures Sub(r.pos, pos) == Scale(r.vel, dt)
    {
      var v := Add(vel, Scale(acc, dt));
      ChainNode(Add(pos, Scale(v, dt)), v, Zero)
    }

    /** Pulls the node back to within `distance` of `to`. A node already close
        enough is left alone; otherwise it is put exactly `distance` away from
        `to` on the ray from `to` through its old position, and (unless
        `cancelAcceleration`) the correction is fed back as acceleration.
        The velocity is never touched. */
    function ConstraintTo(to: Vec, distance: real, cancelAcceleration: bool, normalize: Vec -> Vec): (r: ChainNode)
      requires IsNormalizer(normalize)
      ensures r.vel == vel
      ensures !FartherThan(pos, to, distance) ==> r == this
      ensures r.acc == if FartherThan(pos, to, distance) && !cancelAcceleration
                       then Add(acc, Scale(Sub(r.pos, pos), ReboundFactor))
                       else acc
    {
      if FartherThan(pos, to, distance) then
        var from := pos;
        var dir := normalize(Sub(from, to));
        var p := Add(to, Scale(dir, distance));
        var a := if cancelAcceleration then acc else Add(acc, Scale(Sub(p, from), ReboundFactor));
        ChainNode(p, vel, a)
      else
        this
    }
  }

  /** The all-zero node: what a freshly allocated `ChainNode[]` slot holds. */
  const ZeroNode: ChainNode := ChainNode(Zero, Zero, Zero)

  /** Where `ConstraintTo` leaves a node, for a non-negative `distance`: a node
      that was too far ends up exactly `distance` from `to`, on the ray from `to`
      through its old position; in every case it ends up within `distance`. */
  lemma ConstraintToGeometry(node: ChainNode, to: Vec, distance: real, cancelAcceleration: bool, normalize: Vec -> Vec)
    requires IsNormalizer(normalize)
    requires distance >= 0.0
    ensures var r := node.ConstraintTo(to, distance, cancelAcceleration, normalize);
      var offset, old_offset := Sub(r.pos, to), Sub(node.pos, to);
      (FartherThan(node.pos, to, distance) ==> LengthSq(offset) == distance * distance) &&
      (FartherThan(node.pos, to, distance) && distance > 0.0 ==>
         Cross(offset, old_offset) == 0.0 && Dot(offset, old_offset) > 0.0) &&
      LengthSq(offset) <= distance * distance
  {
    if !FartherThan(node.pos, to, distance) {
      return;
    }
    var v := Sub(node.pos, to);
    SquareNonNegative(distance);
    assert v != Zero;
    var n := normalize(v);
    assert Sub(node.ConstraintTo(to, distance, cancelAcceleration, normalize).pos, to) == Scale(n, distance);
    ScaleFacts(n, v, distance);
    if distance > 0.0 {
      ProductPositive(distance, Dot(n, v));
    }
  }
}
