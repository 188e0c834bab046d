/** The per-tick behaviour of a chain (`Chain.UpdateChain` and the helpers of
    `Chain.Update`) as functions on the node sequence. The imperative class in
    module Chains is proved to produce exactly these values. */
module Simulation {
  import opened Vectors
  import opened Nodes
  import opened World

  /** `Vector2.UnitY * 200f`, added to every node each tick. */
  const Gravity: Vec := Vec(0.0, 200.0)

  /** Factor on the player's speed when the player touches a node. */
  const PlayerPush: real := 8.0

  /** A half-open index range `[lo, hi)`. */
  datatype Span = Span(lo: int, hi: int)
  {
    predicate Contains(i: int) { lo <= i < hi }
  }

  /** The loop range shared by player contact, `FakeShake` and `ShakeImpulse`:
      from 1 if the start is anchored (else 0) to `n - 1` if the end is anchored
      (else `n`). It holds exactly the nodes that are not anchored ends. */
  function Interior(n: nat, startAnchored: bool, endAnchored: bool): (r: Span)
    ensures 0 <= r.lo && r.hi <= n
    ensures forall i :: 0 <= i < n ==>
              (r.Contains(i) <==> !(startAnchored && i == 0) && !(endAnchored && i == n - 1))
  {
    Span(if startAnchored then 1 else 0, n - (if endAnchored then 1 else 0))
  }

  /** The constructor's node layout: slot `i < n - 1` gets position
      `Lerp(from, to, i / (n - 1))` with integer division, the last slot keeps
      the zero value of a fresh struct array. */
  function Layout(n: nat, from: Vec, to: Vec): (r: seq<ChainNode>)
    requires n >= 1
    ensures |r| == n
  {
    seq(n, i requires 0 <= i < n =>
      if i < n - 1 then ZeroNode.(pos := Lerp(from, to, (i / (n - 1)) as real)) else ZeroNode)
  }

  /** Because the weight is an integer quotient, every slot the loop visits sits
      at `from`; the last node is not placed at all. */
  lemma {:induction false} LayoutStacksAtStart(n: nat, from: Vec, to: Vec)
    requires n >= 1
    ensures forall i :: 0 <= i < n - 1 ==> Layout(n, from, to)[i] == ChainNode(from, Zero, Zero)
    ensures Layout(n, from, to)[n - 1] == ZeroNode
  {
    forall i | 0 <= i < n - 1
      ensures Layout(n, from, to)[i] == ChainNode(from, Zero, Zero)
    {
      assert i / (n - 1) == 0;
      LerpAtZero(from, to);
    }
  }

  /** Start of `UpdateChain`: each anchored end is moved to its anchor's current
      position and its velocity cleared. */
  function ResetEnds(s: seq<ChainNode>, start: Anchor, end: Anchor, bodyPos: BodyId -> Vec): (r: seq<ChainNode>)
    requires |s| >= 1
    ensures |r| == |s|
  {
    var s1 := if start.Free? then s else s[0 := s[0].(pos := AnchorPos(start, bodyPos), vel := Zero)];
    if end.Free? then s1 else s1[|s| - 1 := s1[|s| - 1].(pos := AnchorPos(end, bodyPos), vel := Zero)]
  }

  /** The forces of one tick: gravity, and the wind once the chain is in a scene. */
  function Accelerated(acc: Vec, host: Host, inScene: bool): Vec
  {
    var a := Add(acc, Gravity);
    if inScene then Add(a, host.wind) else a
  }

  /** The integration loop of `UpdateChain`: every node, anchored ends included. */
  function Integrate(s: seq<ChainNode>, host: Host, inScene: bool): (r: seq<ChainNode>)
    ensures |r| == |s|
  {
    seq(|s|, i requires 0 <= i < |s| => s[i].(acc := Accelerated(s[i].acc, host, inScene)).UpdateStep(host.dt))
  }

  /** A forward sweep from index `i` up to `hi - 1`: each node is constrained to
      its predecessor as the sweep has already left it. */
  function ForwardSweep(s: seq<ChainNode>, i: int, hi: int, d: real, normalize: Vec -> Vec): (r: seq<ChainNode>)
    requires IsNormalizer(normalize)
    requires 1 <= i && hi <= |s|
    ensures |r| == |s|
    decreases hi - i
  {
    if i >= hi then s
    else ForwardSweep(s[i := s[i].ConstraintTo(s[i - 1].pos, d, false, normalize)], i + 1, hi, d, normalize)
  }

  /** A backward sweep from index `i` down to `lo`: each node is constrained to
      its successor as the sweep has already left it. */
  function BackwardSweep(s: seq<ChainNode>, i: int, lo: int, d: real, normalize: Vec -> Vec): (r: seq<ChainNode>)
    requires IsNormalizer(normalize)
    requires 0 <= lo && -1 <= i <= |s| - 2
    ensures |r| == |s|
    decreases i + 1
  {
    if i < lo then s
    else BackwardSweep(s[i := s[i].ConstraintTo(s[i + 1].pos, d, false, normalize)], i - 1, lo, d, normalize)
  }

  /** The constraint phase of `UpdateChain`, chosen by which ends are anchored. */
  function Solve(s: seq<ChainNode>, startAnchored: bool, endAnchored: bool, d: real, normalize: Vec -> Vec): (r: seq<ChainNode>)
    requires IsNormalizer(normalize)
    requires |s| >= 1
    ensures |r| == |s|
  {
    var n := |s|;
    if !startAnchored && !endAnchored then
      BackwardSweep(ForwardSweep(s, 1, n, d, normalize), n - 2, 0, d, normalize)
    else
      var s1 := if startAnchored then ForwardSweep(s, 1, n - (if endAnchored then 1 else 0), d, normalize) else s;
      if endAnchored then BackwardSweep(s1, n - 2, if startAnchored then 1 else 0, d, normalize) else s1
  }

  /** One `UpdateChain`: reset anchored ends, integrate every node, constrain. */
  function Tick(s: seq<ChainNode>, start: Anchor, end: Anchor, host: Host, inScene: bool, d: real): (r: seq<ChainNode>)
    requires WellFormed(host)
    requires |s| >= 1
    ensures |r| == |s|
  {
    Solve(Integrate(ResetEnds(s, start, end, host.bodyPos), host, inScene),
          !start.Free?, !end.Free?, d, host.normalize)
  }

  /** Link `j` joins nodes `j - 1` and `j`; it is within the rest distance when
      those nodes are no farther apart than `d`. */
  predicate LinkWithin(s: seq<ChainNode>, j: int, d: real)
    requires 1 <= j < |s|
  {
    LengthSq(Sub(s[j].pos, s[j - 1].pos)) <= d * d
  }

  /** The break test of `Update`: the chain may shatter and its end nodes are
      farther apart than `(n + 1) * distanceConstraint`. */
  predicate ShouldBreak(canShatter: bool, s: seq<ChainNode>, d: real)
    requires |s| >= 1
  {
    canShatter && FartherThan(s[0].pos, s[|s| - 1].pos, BreakDistance(|s|, d))
  }

  /** `(nodes.Length + 1) * distanceConstraint`. */
  function BreakDistance(n: nat, d: real): (r: real)
    ensures d >= 0.0 ==> r >= 0.0
  {
    (n + 1) as real * d
  }

  /** Player contact: each interior node inside the player's hitbox gains
      eight times the player's speed as acceleration. */
  function Touched(s: seq<ChainNode>, span: Span, player: Player): (r: seq<ChainNode>)
    ensures |r| == |s|
  {
    seq(|s|, i requires 0 <= i < |s| =>
      if span.Contains(i) && player.collidePoint(s[i].pos)
      then s[i].(acc := Add(s[i].acc, Scale(player.speed, PlayerPush)))
      else s[i])
  }

  /** `ShakeImpulse`: each interior node gains `dirs[i] * strength` as acceleration. */
  function Shaken(s: seq<ChainNode>, span: Span, dirs: seq<Vec>, strength: real): (r: seq<ChainNode>)
    requires |dirs| == |s|
    ensures |r| == |s|
  {
    seq(|s|, i requires 0 <= i < |s| =>
      if span.Contains(i) then s[i].(acc := Add(s[i].acc, Scale(dirs[i], strength))) else s[i])
  }

  /** `FakeShake`: each interior node is displaced by `dirs[i] * radius`. */
  function Jittered(s: seq<ChainNode>, span: Span, dirs: seq<Vec>, radius: real): (r: seq<ChainNode>)
    requires |dirs| == |s|
    ensures |r| == |s|
  {
    seq(|s|, i requires 0 <= i < |s| =>
      if span.Contains(i) then s[i].(pos := Add(s[i].pos, Scale(dirs[i], radius))) else s[i])
  }

  // ---------------------------------------------------------------------------
  // Properties of the sweeps

  /** Gauss–Seidel, forwards: the result leaves every index outside `[lo, hi)`
      alone, and each index inside is its old node constrained to the FINAL
      position of its predecessor. */
  lemma {:induction false} ForwardSweepSpec(s: seq<ChainNode>, lo: int, hi: int, d: real, normalize: Vec -> Vec)
    requires IsNormalizer(normalize)
    requires 1 <= lo && hi <= |s|
    ensures var r := ForwardSweep(s, lo, hi, d, normalize);
      (forall i :: 0 <= i < |s| && !(lo <= i < hi) ==> r[i] == s[i]) &&
      (forall i :: lo <= i < hi ==> r[i] == s[i].ConstraintTo(r[i - 1].pos, d, false, normalize))
    decreases hi - lo
  {
    if lo < hi {
      var s' := s[lo := s[lo].ConstraintTo(s[lo - 1].pos, d, false, normalize)];
      ForwardSweepSpec(s', lo + 1, hi, d, normalize);
      var r := ForwardSweep(s', lo + 1, hi, d, normalize);
      assert r == ForwardSweep(s, lo, hi, d, normalize);
      assert r[lo] == s'[lo] && r[lo - 1] == s[lo - 1];
      forall k | lo < k < hi
        ensures r[k] == s[k].ConstraintTo(r[k - 1].pos, d, false, normalize)
      {
        assert s'[k] == s[k];
      }
    }
  }

  /** Gauss–Seidel, backwards: indices outside `[lo, i]` are untouched, and each
      index inside is its old node constrained to the FINAL position of its
      successor. */
  lemma {:induction false} BackwardSweepSpec(s: seq<ChainNode>, i: int, lo: int, d: real, normalize: Vec -> Vec)
    requires IsNormalizer(normalize)
    requires 0 <= lo && -1 <= i <= |s| - 2
    ensures var r := BackwardSweep(s, i, lo, d, normalize);
      (forall k :: 0 <= k < |s| && !(lo <= k <= i) ==> r[k] == s[k]) &&
      (forall k :: lo <= k <= i ==> r[k] == s[k].ConstraintTo(r[k + 1].pos, d, false, normalize))
    decreases i + 1
  {
    if lo <= i {
      var s' := s[i := s[i].ConstraintTo(s[i + 1].pos, d, false, normalize)];
      BackwardSweepSpec(s', i - 1, lo, d, normalize);
      var r := BackwardSweep(s', i - 1, lo, d, normalize);
      assert r == BackwardSweep(s, i, lo, d, normalize);
      assert r[i] == s'[i] && r[i + 1] == s[i + 1];
      forall k | lo <= k < i
        ensures r[k] == s[k].ConstraintTo(r[k + 1].pos, d, false, normalize)
      {
        assert s'[k] == s[k];
      }
    }
  }

  /** A forward sweep over `[lo, hi)` leaves links `lo .. hi - 1` within `d`. */
  lemma {:induction false} ForwardSweepLinks(s: seq<ChainNode>, lo: int, hi: int, d: real, normalize: Vec -> Vec)
    requires IsNormalizer(normalize)
    requires 1 <= lo && hi <= |s| && d >= 0.0
    ensures forall j :: lo <= j < hi ==> LinkWithin(ForwardSweep(s, lo, hi, d, normalize), j, d)
  {
    var r := ForwardSweep(s, lo, hi, d, normalize);
    ForwardSweepSpec(s, lo, hi, d, normalize);
    forall j | lo <= j < hi
      ensures LinkWithin(r, j, d)
    {
      ConstraintToGeometry(s[j], r[j - 1].pos, d, false, normalize);
    }
  }

  /** A backward sweep over `[lo, i]` leaves links `lo + 1 .. i + 1` within `d`. */
  lemma {:induction false} BackwardSweepLinks(s: seq<ChainNode>, i: int, lo: int, d: real, normalize: Vec -> Vec)
    requires IsNormalizer(normalize)
    requires 0 <= lo && -1 <= i <= |s| - 2 && d >= 0.0
    ensures forall j :: lo + 1 <= j <= i + 1 ==> LinkWithin(BackwardSweep(s, i, lo, d, normalize), j, d)
  {
    var r := BackwardSweep(s, i, lo, d, normalize);
    BackwardSweepSpec(s, i, lo, d, normalize);
    forall j | lo + 1 <= j <= i + 1
      ensures LinkWithin(r, j, d)
    {
      ConstraintToGeometry(s[j - 1], r[j].pos, d, false, normalize);
      assert Sub(r[j].pos, r[j - 1].pos) == Scale(Sub(r[j - 1].pos, r[j].pos), -1.0);
      ScaleFacts(Sub(r[j - 1].pos, r[j].pos), Zero, -1.0);
    }
  }

  // ---------------------------------------------------------------------------
  // Properties of the constraint phase

  /** The constraint phase never moves an anchored end: an anchored end node is
      left exactly as integration left it. */
  lemma {:induction false} SolveKeepsAnchoredEnds(s: seq<ChainNode>, startAnchored: bool, endAnchored: bool, d: real, normalize: Vec -> Vec)
    requires IsNormalizer(normalize)
    requires |s| >= 1
    ensures var r := Solve(s, startAnchored, endAnchored, d, normalize);
      (startAnchored ==> r[0] == s[0]) && (endAnchored ==> r[|s| - 1] == s[|s| - 1])
  {
    var n := |s|;
    if startAnchored && !endAnchored {
      ForwardSweepSpec(s, 1, n, d, normalize);
    } else if !startAnchored && endAnchored {
      BackwardSweepSpec(s, n - 2, 0, d, normalize);
    } else if startAnchored && endAnchored {
      var s1 := ForwardSweep(s, 1, n - 1, d, normalize);
      ForwardSweepSpec(s, 1, n - 1, d, normalize);
      assert s1[0] == s[0] && s1[n - 1] == s[n - 1];
      BackwardSweepSpec(s1, n - 2, 1, d, normalize);
    }
  }

  /** After the constraint phase every link is within the rest distance, except
      the first link when both ends are anchored (the backward sweep moves node
      1 after the forward sweep fitted it to node 0). */
  lemma {:induction false} SolveLinksWithinRest(s: seq<ChainNode>, startAnchored: bool, endAnchored: bool, d: real, normalize: Vec -> Vec)
    requires IsNormalizer(normalize)
    requires |s| >= 1 && d >= 0.0
    ensures var r := Solve(s, startAnchored, endAnchored, d, normalize);
      forall j :: 1 <= j < |s| && !(startAnchored && endAnchored && j == 1) ==> LinkWithin(r, j, d)
  {
    var n := |s|;
    if !startAnchored && !endAnchored {
      BackwardSweepLinks(ForwardSweep(s, 1, n, d, normalize), n - 2, 0, d, normalize);
    } else if !endAnchored {
      ForwardSweepLinks(s, 1, n, d, normalize);
    } else if !startAnchored {
      BackwardSweepLinks(s, n - 2, 0, d, normalize);
    } else {
      BackwardSweepLinks(ForwardSweep(s, 1, n - 1, d, normalize), n - 2, 1, d, normalize);
    }
  }

  // ---------------------------------------------------------------------------
  // Properties of a whole tick

  /** An anchored start node is reset to its anchor, integrated like any other
      node, and never constrained: after the tick it has the velocity one step
      from rest gives it, has moved from the anchor by that velocity, and has no
      pending acceleration. */
  lemma {:induction false} TickAnchoredStart(s: seq<ChainNode>, start: Anchor, end: Anchor, host: Host, inScene: bool, d: real)
    requires WellFormed(host)
    requires |s| >= 1 && !start.Free? && (|s| > 1 || end.Free?)
    ensures var r := Tick(s, start, end, host, inScene, d)[0];
      r == StepFromRest(AnchorPos(start, host.bodyPos), Accelerated(s[0].acc, host, inScene), host.dt)
  {
    var reset := ResetEnds(s, start, end, host.bodyPos);
    var integrated := Integrate(reset, host, inScene);
    SolveKeepsAnchoredEnds(integrated, true, !end.Free?, d, host.normalize);
    ResetStart(s, start, end, host.bodyPos);
    IntegrateAt(reset, host, inScene, 0);
  }

  /** The same for an anchored end node. */
  lemma {:induction false} TickAnchoredEnd(s: seq<ChainNode>, start: Anchor, end: Anchor, host: Host, inScene: bool, d: real)
    requires WellFormed(host)
    requires |s| >= 1 && !end.Free?
    ensures var r := Tick(s, start, end, host, inScene, d)[|s| - 1];
      r == StepFromRest(AnchorPos(end, host.bodyPos), Accelerated(s[|s| - 1].acc, host, inScene), host.dt)
  {
    var reset := ResetEnds(s, start, end, host.bodyPos);
    var integrated := Integrate(reset, host, inScene);
    SolveKeepsAnchoredEnds(integrated, !start.Free?, true, d, host.normalize);
    ResetEnd(s, start, end, host.bodyPos);
    IntegrateAt(reset, host, inScene, |s| - 1);
  }

  lemma {:induction false} ResetStart(s: seq<ChainNode>, start: Anchor, end: Anchor, bodyPos: BodyId -> Vec)
    requires |s| >= 1 && !start.Free? && (|s| > 1 || end.Free?)
    ensures ResetEnds(s, start, end, bodyPos)[0] == s[0].(pos := AnchorPos(start, bodyPos), vel := Zero)
  {
  }

  lemma {:induction false} ResetEnd(s: seq<ChainNode>, start: Anchor, end: Anchor, bodyPos: BodyId -> Vec)
    requires |s| >= 1 && !end.Free?
    ensures ResetEnds(s, start, end, bodyPos)[|s| - 1] == s[|s| - 1].(pos := AnchorPos(end, bodyPos), vel := Zero)
  {
  }

  lemma {:induction false} IntegrateAt(s: seq<ChainNode>, host: Host, inScene: bool, i: int)
    requires 0 <= i < |s| && s[i].vel == Zero
    ensures Integrate(s, host, inScene)[i] == StepFromRest(s[i].pos, Accelerated(s[i].acc, host, inScene), host.dt)
  {
    var a := Accelerated(s[i].acc, host, inScene);
    StepFromRestIsUpdateStep(s[i].pos, a, host.dt);
  }

  /** A node at rest at `p` after one step under acceleration `a`: it moves
      at velocity `a * dt`, and has travelled that velocity times `dt`. */
  function StepFromRest(p: Vec, a: Vec, dt: real): (r: ChainNode)
  {
    var v := Scale(a, dt);
    ChainNode(Add(p, Scale(v, dt)), v, Zero)
  }

  lemma {:induction false} StepFromRestIsUpdateStep(p: Vec, a: Vec, dt: real)
    ensures ChainNode(p, Zero, a).UpdateStep(dt) == StepFromRest(p, a, dt)
  {
    var r := ChainNode(p, Zero, a).UpdateStep(dt);
    assert Sub(r.vel, Zero) == Scale(a, dt);
    assert r.vel == Scale(a, dt);
  }

  /** Only a chain of two or more nodes can break (for a non-negative rest
      distance): the end nodes of a one-node chain coincide. */
  lemma {:induction false} BreakNeedsTwoNodes(canShatter: bool, s: seq<ChainNode>, d: real)
    requires |s| >= 1 && d >= 0.0
    ensures ShouldBreak(canShatter, s, d) ==> |s| >= 2
  {
    if |s| == 1 {
      NeverFartherFromItself(s[0].pos, BreakDistance(|s|, d));
    }
  }

  /** After a whole tick every link is within the rest distance, except the
      first link of a chain anchored at both ends. */
  lemma {:induction false} TickLinksWithinRest(s: seq<ChainNode>, start: Anchor, end: Anchor, host: Host, inScene: bool, d: real)
    requires WellFormed(host)
    requires |s| >= 1 && d >= 0.0
    ensures var r := Tick(s, start, end, host, inScene, d);
      forall j :: 1 <= j < |s| && !(!start.Free? && !end.Free? && j == 1) ==> LinkWithin(r, j, d)
  {
    var integrated := Integrate(ResetEnds(s, start, end, host.bodyPos), host, inScene);
    SolveLinksWithinRest(integrated, !start.Free?, !end.Free?, d, host.normalize);
  }

  // ---------------------------------------------------------------------------
  // The interior loops

  /** Player contact, `ShakeImpulse` and `FakeShake` over the interior span
      leave an anchored end node exactly as it was; the two acceleration loops
      never move a node, and `FakeShake` never changes a velocity or an
      acceleration. */
  lemma {:induction false} InteriorLoopsSpareAnchoredEnds(s: seq<ChainNode>, startAnchored: bool, endAnchored: bool,
                                                          player: Player, dirs: seq<Vec>, k: real)
    requires |s| >= 1 && |dirs| == |s|
    ensures var span := Interior(|s|, startAnchored, endAnchored);
      var touched, shaken, jittered := Touched(s, span, player), Shaken(s, span, dirs, k), Jittered(s, span, dirs, k);
      (startAnchored ==> touched[0] == s[0] && shaken[0] == s[0] && jittered[0] == s[0]) &&
      (endAnchored ==> touched[|s| - 1] == s[|s| - 1] && shaken[|s| - 1] == s[|s| - 1] && jittered[|s| - 1] == s[|s| - 1]) &&
      (forall i :: 0 <= i < |s| ==>
        touched[i].pos == s[i].pos && touched[i].vel == s[i].vel &&
        shaken[i].pos == s[i].pos && shaken[i].vel == s[i].vel &&
        jittered[i].vel == s[i].vel && jittered[i].acc == s[i].acc)
  {
    var span := Interior(|s|, startAnchored, endAnchored);
    assert startAnchored ==> !span.Contains(0);
    assert endAnchored ==> !span.Contains(|s| - 1);
  }

  // ---------------------------------------------------------------------------
  // Construction

  /** The nodes of a freshly constructed chain of `n` nodes: laid out from the
      start anchor towards the end anchor (or the start again when the end is
      free), then one `UpdateChain` before the chain is in any scene. */
  function Initial(n: nat, start: Anchor, end: Anchor, host: Host, d: real): (r: seq<ChainNode>)
    requires n >= 1 && !start.Free? && WellFormed(host)
    ensures |r| == n
  {
    var from := AnchorPos(start, host.bodyPos);
    var to := if end.Free? then from else AnchorPos(end, host.bodyPos);
    Tick(Layout(n, from, to), start, end, host, false, d)
  }

  /** A new chain's first node has taken one step from rest at its start
      anchor under gravity alone (no wind outside a scene). */
  lemma {:induction false} InitialHangsFromStart(n: nat, start: Anchor, end: Anchor, host: Host, d: real)
    requires n >= 1 && !start.Free? && (n > 1 || end.Free?) && WellFormed(host)
    ensures Initial(n, start, end, host, d)[0] == StepFromRest(AnchorPos(start, host.bodyPos), Gravity, host.dt)
  {
    var from := AnchorPos(start, host.bodyPos);
    var to := if end.Free? then from else AnchorPos(end, host.bodyPos);
    var laid := Layout(n, from, to);
    assert laid[0].acc == Zero;
    assert Accelerated(laid[0].acc, host, false) == Gravity;
    TickAnchoredStart(laid, start, end, host, false, d);
  }
}
