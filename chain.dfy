/** The `Chain` entity: an array of nodes updated in place every frame, two
    endpoint anchors that can be re-bound to solids or dropped, and the break
    that replaces an over-stretched chain by two shorter ones. Every method is
    proved to leave the node array equal to the value the functions of module
    Simulation compute from the state before the call. */
module Chains {
  import opened Vectors
  import opened Nodes
  import opened World
  import opened Simulation

  /** Rest distance of a placed chain and of both halves of a broken one. */
  const JointSpacing: real := 8.0

  /** `ShakeImpulse`'s default strength, used on both halves of a break. */
  const ShatterStrength: real := 10000.0

  /** How far `FakeShake` displaces each free node. */
  const FakeShakeRadius: real := 4.0

  /** C#'s `(int)` conversion of a float: truncation toward zero. */
  function TruncateToInt(x: real): (r: int)
    ensures 0.0 <= x ==> 0 <= r && r as real <= x < r as real + 1.0
    ensures x < 0.0 ==> r <= 0 && r as real - 1.0 < x <= r as real
  {
    if x >= 0.0 then x.Floor else -((-x).Floor)
  }

  /** Node count of a chain placed in a map: one node per `JointSpacing` of
      distance between its two points, plus one, plus the extra joints. */
  function NodeCount(distance: real, extraJoints: int): int
  {
    TruncateToInt(distance / JointSpacing + 1.0 + extraJoints as real)
  }

  /** Without extra joints, a placed chain gets one node per whole
      `JointSpacing` in the distance between its points, plus one; so evenly
      spaced along that distance its nodes are at least `JointSpacing` apart. */
  lemma NodeCountCoversDistance(distance: real, extraJoints: int)
    requires distance >= 0.0 && extraJoints >= 0
    ensures var n := NodeCount(distance, extraJoints);
      n >= 1 + extraJoints &&
      (n - 1 - extraJoints) as real * JointSpacing <= distance < (n - extraJoints) as real * JointSpacing
  {
    var x := distance / JointSpacing + 1.0 + extraJoints as real;
    var n := TruncateToInt(x);
    assert n as real <= x < n as real + 1.0;
  }

  class Chain {
    /** The nodes. The array itself is never replaced, only its slots. */
    const Nodes: array<ChainNode>
    /** Rest distance between neighbouring nodes. */
    const distanceConstraint: real
    /** Whether an over-stretched chain breaks in half. */
    const canShatter: bool
    /** Whether the chain was placed in a map (and so binds to solids on `Awake`). */
    var placed: bool
    /** Whether the player pushes the nodes it touches. */
    var AllowPlayerInteraction: bool
    /** The getters of the two endpoints; `Free` for a `null` getter. */
    var attachedStart: Anchor
    var attachedEnd: Anchor
    /** Set once the endpoints have been bound to solids. */
    var attached: bool
    /** Set when the chain calls `RemoveSelf`; what the engine does with that
        request is not modelled. */
    var removed: bool

    /** A chain has at least one node and a non-negative rest distance. */
    ghost predicate Valid()
      reads this
    {
      Nodes.Length >= 1 && distanceConstraint >= 0.0
    }

    /** The span of nodes that are not anchored ends. */
    function FreeNodes(): (r: Span)
      reads this
      ensures 0 <= r.lo && r.hi <= Nodes.Length
    {
      Interior(Nodes.Length, !attachedStart.Free?, !attachedEnd.Free?)
    }

    /** `Chain(segment, outline, nodeCount, distanceConstraint, start, end, canShatter)`:
        allocate the nodes, lay them out between the endpoints and run one
        `UpdateChain` outside any scene. The start getter is called by the base
        constructor, so it must exist. */
    constructor (nodeCount: int, distanceConstraint: real, attachedStart: Anchor, attachedEnd: Anchor,
                 canShatter: bool, host: Host)
      requires nodeCount >= 1 && distanceConstraint >= 0.0
      requires !attachedStart.Free? && WellFormed(host)
      ensures Valid() && fresh(Nodes) && Nodes.Length == nodeCount
      ensures this.distanceConstraint == distanceConstraint && this.canShatter == canShatter
      ensures this.attachedStart == attachedStart && this.attachedEnd == attachedEnd
      ensures !placed && !AllowPlayerInteraction && !attached && !removed
      ensures Nodes[..] == Initial(nodeCount, attachedStart, attachedEnd, host, distanceConstraint)
    {
      Nodes := new ChainNode[nodeCount](_ => ZeroNode);
      this.distanceConstraint := distanceConstraint;
      this.canShatter := canShatter;
      this.attachedStart := attachedStart;
      this.attachedEnd := attachedEnd;
      new;
      var from := AnchorPos(attachedStart, host.bodyPos);
      var to := if attachedEnd.Free? then from else AnchorPos(attachedEnd, host.bodyPos);
      LayOut(from, to);
      UpdateChain(host, false);
      AllowPlayerInteraction, placed, attached, removed := false, false, false, false;
    }

    /** `Chain(EntityData, offset)`: a chain placed in a map between its
        position and its first node, both fixed points, with rest distance
        `JointSpacing`; it lets the player push it and binds to solids on
        `Awake`. `distance` is `Vector2.Distance` of the two points, which the
        host computes. */
    static method Placed(position: Vec, node: Vec, distance: real, extraJoints: int, host: Host) returns (c: Chain)
      requires NodeCount(distance, extraJoints) >= 1 && WellFormed(host)
      ensures c.Valid() && fresh(c) && fresh(c.Nodes) && c.Nodes.Length == NodeCount(distance, extraJoints)
      ensures c.distanceConstraint == JointSpacing && c.canShatter
      ensures c.attachedStart == Fixed(position) && c.attachedEnd == Fixed(node)
      ensures c.placed && c.AllowPlayerInteraction && !c.attached && !c.removed
      ensures c.Nodes[..] == Initial(c.Nodes.Length, Fixed(position), Fixed(node), host, JointSpacing)
    {
      c := new Chain(NodeCount(distance, extraJoints), JointSpacing, Fixed(position), Fixed(node), true, host);
      c.AllowPlayerInteraction := true;
      c.placed := true;
    }

    /** The constructor's placement loop over a freshly allocated array. */
    method LayOut(from: Vec, to: Vec)
      requires Nodes.Length >= 1
      requires forall i :: 0 <= i < Nodes.Length ==> Nodes[i] == ZeroNode
      modifies Nodes
      ensures Nodes[..] == Layout(Nodes.Length, from, to)
    {
      var n := Nodes.Length;
      for i := 0 to n - 1
        invariant forall k :: 0 <= k < i ==> Nodes[k] == Layout(n, from, to)[k]
        invariant forall k :: i <= k < n ==> Nodes[k] == ZeroNode
      {
        Nodes[i] := Nodes[i].(pos := Lerp(from, to, (i / (n - 1)) as real));
      }
      assert forall k :: 0 <= k < n ==> Nodes[..][k] == Layout(n, from, to)[k];
    }

    /** Binds each endpoint to the solid under it, once: an endpoint with no
        solid under it is detached, and a chain left with no anchor at all
        removes itself. */
    method AttachedEndsToSolids(host: Host)
      requires Valid()
      modifies this`attachedStart, this`attachedEnd, this`attached, this`removed
      ensures attached
      ensures old(attached) ==>
        attachedStart == old(attachedStart) && attachedEnd == old(attachedEnd) && removed == old(removed)
      ensures !old(attached) ==>
        var p, q := Nodes[0].pos, Nodes[Nodes.Length - 1].pos;
        attachedStart == Bind(host.collideFirst(p), p, host.bodyPos) &&
        attachedEnd == Bind(host.collideFirst(q), q, host.bodyPos) &&
        removed == (old(removed) || (attachedStart.Free? && attachedEnd.Free?))
    {
      if attached {
        return;
      }
      attached := true;
      var start := Nodes[0].pos;
      var end := Nodes[Nodes.Length - 1].pos;
      var startSolid := host.collideFirst(start);
      var endSolid := host.collideFirst(end);
      if startSolid.Some? {
        attachedStart := Bind(startSolid, start, host.bodyPos);
      } else {
        DetachStart();
      }
      if endSolid.Some? {
        attachedEnd := Bind(endSolid, end, host.bodyPos);
      } else {
        DetachEnd();
      }
      if attachedStart.Free? && attachedEnd.Free? {
        removed := true;
      }
    }

    /** Entering the scene: a placed chain binds its endpoints to solids. */
    method Awake(host: Host)
      requires Valid()
      modifies this`attachedStart, this`attachedEnd, this`attached, this`removed
      ensures placed ==> attached
      ensures !placed ==> attached == old(attached)
      ensures !placed || old(attached) ==>
        attachedStart == old(attachedStart) && attachedEnd == old(attachedEnd) && removed == old(removed)
      ensures placed && !old(attached) ==>
        var p, q := Nodes[0].pos, Nodes[Nodes.Length - 1].pos;
        attachedStart == Bind(host.collideFirst(p), p, host.bodyPos) &&
        attachedEnd == Bind(host.collideFirst(q), q, host.bodyPos) &&
        removed == (old(removed) || (attachedStart.Free? && attachedEnd.Free?))
    {
      if placed {
        AttachedEndsToSolids(host);
      }
    }

    /** One frame: a tick of the simulation, the break test, and the player's push. */
    method Update(host: Host, player: Option<Player>, dirsA: seq<Vec>, dirsB: seq<Vec>) returns (children: seq<Chain>)
      requires Valid() && WellFormed(host)
      requires |dirsA| == Nodes.Length / 2 && |dirsB| == Nodes.Length / 2
      modifies this`removed, Nodes
      ensures var ticked := Tick(old(Nodes[..]), attachedStart, attachedEnd, host, true, distanceConstraint);
        var breaks := ShouldBreak(canShatter, ticked, distanceConstraint);
        var middle := ticked[|ticked| / 2].pos;
        removed == (old(removed) || breaks) &&
        |children| == (if breaks then 2 else 0) &&
        (breaks ==>
          |ticked| >= 2 &&
          IsHalf(children[0], |ticked| / 2, middle, attachedStart, host, dirsA) &&
          IsHalf(children[1], |ticked| / 2, middle, attachedEnd, host, dirsB)) &&
        Nodes[..] == if AllowPlayerInteraction && player.Some?
                     then Touched(ticked, FreeNodes(), player.value)
                     else ticked
      ensures forall c :: c in children ==> fresh(c) && fresh(c.Nodes)
    {
      UpdateChain(host, true);
      children := [];
      BreakNeedsTwoNodes(canShatter, Nodes[..], distanceConstraint);
      if ShouldBreak(canShatter, Nodes[..], distanceConstraint) {
        var a, b := BreakInHalf(host, dirsA, dirsB);
        children := [a, b];
      }
      if AllowPlayerInteraction && player.Some? {
        PushByPlayer(player.value);
      }
    }

    /** The player-contact loop of `Update`: every free node inside the
        player's hitbox gains `PlayerPush` times the player's speed. */
    method PushByPlayer(player: Player)
      modifies Nodes
      ensures Nodes[..] == Touched(old(Nodes[..]), FreeNodes(), player)
    {
      var span := FreeNodes();
      ghost var s := Nodes[..];
      var i := span.lo;
      while i < span.hi
        invariant span.lo <= i && (i <= span.hi || span.hi < span.lo)
        invariant forall k :: 0 <= k < Nodes.Length && k < i ==> Nodes[k] == Touched(s, span, player)[k]
        invariant forall k :: i <= k < Nodes.Length ==> Nodes[k] == s[k]
      {
        if player.collidePoint(Nodes[i].pos) {
          Nodes[i] := Nodes[i].(acc := Add(Nodes[i].acc, Scale(player.speed, PlayerPush)));
        }
        i := i + 1;
      }
      assert forall k :: 0 <= k < Nodes.Length ==> Nodes[..][k] == Touched(s, span, player)[k];
    }

    /** Replaces the chain by two chains of half its nodes (rounded down), each
        running from the middle node towards one of the old anchors; each half
        binds its endpoints to solids and is shaken. */
    method BreakInHalf(host: Host, dirsA: seq<Vec>, dirsB: seq<Vec>) returns (a: Chain, b: Chain)
      requires Valid() && Nodes.Length >= 2 && WellFormed(host)
      requires |dirsA| == Nodes.Length / 2 && |dirsB| == Nodes.Length / 2
      modifies this`removed
      ensures removed
      ensures fresh(a) && fresh(a.Nodes) && fresh(b) && fresh(b.Nodes)
      ensures IsHalf(a, Nodes.Length / 2, Nodes[Nodes.Length / 2].pos, attachedStart, host, dirsA)
      ensures IsHalf(b, Nodes.Length / 2, Nodes[Nodes.Length / 2].pos, attachedEnd, host, dirsB)
    {
      removed := true;
      var middleNode := Nodes[Nodes.Length / 2].pos;
      a := Half(Nodes.Length / 2, middleNode, attachedStart, host, dirsA);
      b := Half(Nodes.Length / 2, middleNode, attachedEnd, host, dirsB);
    }

    /** One half of a break: a new chain of `n` nodes from `middle` towards
        `far`, bound to solids and shaken. */
    static method Half(n: int, middle: Vec, far: Anchor, host: Host, dirs: seq<Vec>) returns (c: Chain)
      requires n >= 1 && |dirs| == n && WellFormed(host)
      ensures fresh(c) && fresh(c.Nodes)
      ensures IsHalf(c, n, middle, far, host, dirs)
    {
      c := new Chain(n, JointSpacing, Fixed(middle), far, true, host);
      c.AttachedEndsToSolids(host);
      c.ShakeImpulse(dirs, ShatterStrength);
    }

    /** The whole of `UpdateChain`: reset anchored ends, integrate, constrain. */
    method UpdateChain(host: Host, inScene: bool)
      requires Nodes.Length >= 1 && WellFormed(host)
      modifies Nodes
      ensures Nodes[..] == Tick(old(Nodes[..]), attachedStart, attachedEnd, host, inScene, distanceConstraint)
    {
      ResetAnchoredEnds(host.bodyPos);
      Advance(host, inScene);
      Constrain(host.normalize);
    }

    /** Moves each anchored end to its anchor and stops it. */
    method ResetAnchoredEnds(bodyPos: BodyId -> Vec)
      requires Nodes.Length >= 1
      modifies Nodes
      ensures Nodes[..] == ResetEnds(old(Nodes[..]), attachedStart, attachedEnd, bodyPos)
    {
      var n := Nodes.Length;
      if !attachedStart.Free? {
        Nodes[0] := Nodes[0].(pos := AnchorPos(attachedStart, bodyPos), vel := Zero);
      }
      if !attachedEnd.Free? {
        Nodes[n - 1] := Nodes[n - 1].(pos := AnchorPos(attachedEnd, bodyPos), vel := Zero);
      }
    }

    /** Adds gravity (and, in a scene, the wind) to every node and steps it. */
    method Advance(host: Host, inScene: bool)
      modifies Nodes
      ensures Nodes[..] == Integrate(old(Nodes[..]), host, inScene)
    {
      ghost var s := Nodes[..];
      for i := 0 to Nodes.Length
        invariant forall k :: 0 <= k < i ==> Nodes[k] == Integrate(s, host, inScene)[k]
        invariant forall k :: i <= k < Nodes.Length ==> Nodes[k] == s[k]
      {
        var acc := Add(Nodes[i].acc, Gravity);
        if inScene {
          acc := Add(acc, host.wind);
        }
        Nodes[i] := Nodes[i].(acc := acc).UpdateStep(host.dt);
      }
      assert forall k :: 0 <= k < Nodes.Length ==> Nodes[..][k] == Integrate(s, host, inScene)[k];
    }

    /** The constraint sweeps, chosen by which ends are anchored. */
    method Constrain(normalize: Vec -> Vec)
      requires Nodes.Length >= 1 && IsNormalizer(normalize)
      modifies Nodes
      ensures Nodes[..] == Solve(old(Nodes[..]), !attachedStart.Free?, !attachedEnd.Free?, distanceConstraint, normalize)
    {
      var n := Nodes.Length;
      var startAttached := !attachedStart.Free?;
      var endAttached := !attachedEnd.Free?;
      if !startAttached && !endAttached {
        SweepForward(n, normalize);
        SweepBackward(0, normalize);
      } else {
        if startAttached {
          SweepForward(n - (if endAttached then 1 else 0), normalize);
        }
        if endAttached {
          SweepBackward(if startAttached then 1 else 0, normalize);
        }
      }
    }

    /** Constrains nodes `1 .. hi - 1` in turn, each to its predecessor. */
    method SweepForward(hi: int, normalize: Vec -> Vec)
      requires IsNormalizer(normalize) && hi <= Nodes.Length
      modifies Nodes
      ensures Nodes[..] == ForwardSweep(old(Nodes[..]), 1, hi, distanceConstraint, normalize)
    {
      var i := 1;
      while i < hi
        invariant 1 <= i && (i <= hi || hi < 1)
        invariant ForwardSweep(Nodes[..], i, hi, distanceConstraint, normalize) ==
                  ForwardSweep(old(Nodes[..]), 1, hi, distanceConstraint, normalize)
        decreases hi - i
      {
        ghost var before := Nodes[..];
        Nodes[i] := Nodes[i].ConstraintTo(Nodes[i - 1].pos, distanceConstraint, false, normalize);
        assert Nodes[..] == before[i := before[i].ConstraintTo(before[i - 1].pos, distanceConstraint, false, normalize)];
        i := i + 1;
      }
    }

    /** Constrains nodes `n - 2` down to `lo` in turn, each to its successor. */
    method SweepBackward(lo: int, normalize: Vec -> Vec)
      requires IsNormalizer(normalize) && 0 <= lo && Nodes.Length >= 1
      modifies Nodes
      ensures Nodes[..] == BackwardSweep(old(Nodes[..]), Nodes.Length - 2, lo, distanceConstraint, normalize)
    {
      var i := Nodes.Length - 2;
      while i >= lo
        invariant -1 <= i <= Nodes.Length - 2
        invariant BackwardSweep(Nodes[..], i, lo, distanceConstraint, normalize) ==
                  BackwardSweep(old(Nodes[..]), Nodes.Length - 2, lo, distanceConstraint, normalize)
        decreases i + 1
      {
        ghost var before := Nodes[..];
        Nodes[i] := Nodes[i].ConstraintTo(Nodes[i + 1].pos, distanceConstraint, false, normalize);
        assert Nodes[..] == before[i := before[i].ConstraintTo(before[i + 1].pos, distanceConstraint, false, normalize)];
        i := i - 1;
      }
    }

    method DetachStart()
      modifies this`attachedStart
      ensures attachedStart == Free
    {
      attachedStart := Free;
    }

    method DetachEnd()
      modifies this`attachedEnd
      ensures attachedEnd == Free
    {
      attachedEnd := Free;
    }

    /** Displaces every free node by `FakeShakeRadius` along its direction in `dirs`. */
    method FakeShake(dirs: seq<Vec>)
      requires |dirs| == Nodes.Length
      modifies Nodes
      ensures Nodes[..] == Jittered(old(Nodes[..]), FreeNodes(), dirs, FakeShakeRadius)
    {
      var span := FreeNodes();
      ghost var s := Nodes[..];
      var i := span.lo;
      while i < span.hi
        invariant span.lo <= i && (i <= span.hi || span.hi < span.lo)
        invariant forall k :: 0 <= k < Nodes.Length && k < i ==> Nodes[k] == Jittered(s, span, dirs, FakeShakeRadius)[k]
        invariant forall k :: i <= k < Nodes.Length ==> Nodes[k] == s[k]
      {
        Nodes[i] := Nodes[i].(pos := Add(Nodes[i].pos, Scale(dirs[i], FakeShakeRadius)));
        i := i + 1;
      }
      assert forall k :: 0 <= k < Nodes.Length ==> Nodes[..][k] == Jittered(s, span, dirs, FakeShakeRadius)[k];
    }

    /** Gives every free node an acceleration of `strength` along its direction in `dirs`. */
    method ShakeImpulse(dirs: seq<Vec>, strength: real)
      requires |dirs| == Nodes.Length
      modifies Nodes
      ensures Nodes[..] == Shaken(old(Nodes[..]), FreeNodes(), dirs, strength)
    {
      var span := FreeNodes();
      ghost var s := Nodes[..];
      var i := span.lo;
      while i < span.hi
        invariant span.lo <= i && (i <= span.hi || span.hi < span.lo)
        invariant forall k :: 0 <= k < Nodes.Length && k < i ==> Nodes[k] == Shaken(s, span, dirs, strength)[k]
        invariant forall k :: i <= k < Nodes.Length ==> Nodes[k] == s[k]
      {
        Nodes[i] := Nodes[i].(acc := Add(Nodes[i].acc, Scale(dirs[i], strength)));
        i := i + 1;
      }
      assert forall k :: 0 <= k < Nodes.Length ==> Nodes[..][k] == Shaken(s, span, dirs, strength)[k];
    }
  }

  /** What `BreakInHalf` leaves in one half `c` of `n` nodes that runs from
      `middle` towards `far`: built as a new chain, its endpoints bound to the
      solids found under its end nodes (`RemoveSelf` called if none), its free nodes shaken
      along `dirs` with `ShatterStrength`. */
  ghost predicate IsHalf(c: Chain, n: nat, middle: Vec, far: Anchor, host: Host, dirs: seq<Vec>)
    requires n >= 1 && |dirs| == n && WellFormed(host)
    reads c, c.Nodes
  {
    var built := Initial(n, Fixed(middle), far, host, JointSpacing);
    var p, q := built[0].pos, built[n - 1].pos;
    var start := Bind(host.collideFirst(p), p, host.bodyPos);
    var end := Bind(host.collideFirst(q), q, host.bodyPos);
    && c.Valid() && c.Nodes.Length == n
    && c.distanceConstraint == JointSpacing && c.canShatter && !c.placed && !c.AllowPlayerInteraction
    && c.attached && c.attachedStart == start && c.attachedEnd == end
    && c.removed == (start.Free? && end.Free?)
    && c.Nodes[..] == Shaken(built, Interior(n, !start.Free?, !end.Free?), dirs, ShatterStrength)
  }
}
