/** The value-level behaviour of a human: the motion state machine of one tick,
    the speech-bubble timer, and the collision-avoidance push between humans. */
module Motion {
  import opened Geometry

  datatype HumanState = Idle | Moving | Selected

  /** The part of a human that the motion step reads and writes. */
  datatype Mover = Mover(position: Vector2, target: Option<Vector2>, state: HumanState)

  /** The cosmetic speech-bubble fields of a human. */
  datatype Bubble = Bubble(timer: real, show: bool, interval: real)

  /** A human closer than this to its target snaps onto it. */
  const ArrivalRadius: real := 2.0
  /** Humans closer than this push each other apart. */
  const AvoidanceRadius: real := 30.0
  const PushForce: real := 5.0
  /** How long a bubble stays visible once its interval has elapsed. */
  const BubbleDuration: real := 2.0

  /** `isMoving()`: in the moving state with a target. */
  predicate IsMoving(m: Mover)
  {
    m.state == Moving && m.target.Some?
  }

  // ---------------------------------------------------------------------------
  // The motion step.

  /** One tick of movement: snap onto a target closer than `ArrivalRadius`,
      otherwise advance `speed * dt` along the unit direction to the target. */
  function Step(m: Mover, speed: real, dt: real, sqrt: real -> real): (r: Mover)
    requires IsSqrt(sqrt)
    ensures !IsMoving(m) ==> r == m
    ensures IsMoving(m) && DistSq(m.position, m.target.value) < Sq(ArrivalRadius) ==>
      r == Mover(m.target.value, None, Idle)
    ensures IsMoving(m) && Sq(ArrivalRadius) <= DistSq(m.position, m.target.value) ==>
      r.target == m.target && r.state == Moving &&
      r.position == Add(m.position, Scale(Normalize(Sub(m.target.value, m.position), sqrt), speed * dt))
  {
    if m.target.Some? && m.state == Moving then
      var t := m.target.value;
      var dx := t.x - m.position.x;
      var dy := t.y - m.position.y;
      var distance := Distance(t, m.position, sqrt);
      DistSqSymmetric(t, m.position);
      DistanceBelow(t, m.position, ArrivalRadius, sqrt);
      if distance < ArrivalRadius then
        Mover(t, None, Idle)
      else
        var moveDistance := speed * dt;
        Mover(Vec(m.position.x + (dx / distance) * moveDistance,
                  m.position.y + (dy / distance) * moveDistance),
              m.target, m.state)
    else
      m
  }

  /** A step that does not arrive covers exactly `speed * dt`, whatever the
      remaining distance: nothing stops it at the target. */
  lemma StepDistance(m: Mover, speed: real, dt: real, sqrt: real -> real)
    requires IsSqrt(sqrt)
    requires IsMoving(m) && Sq(ArrivalRadius) <= DistSq(m.position, m.target.value)
    ensures DistSq(Step(m, speed, dt, sqrt).position, m.position) == Sq(speed * dt)
  {
    var r := Step(m, speed, dt, sqrt);
    var u := Normalize(Sub(m.target.value, m.position), sqrt);
    assert r.position == Add(m.position, Scale(u, speed * dt));
    assert m.position != m.target.value;
    SubNonZero(m.target.value, m.position);
    OffsetLength(m.position, u, speed * dt, r.position);
  }

  lemma SubNonZero(a: Vector2, b: Vector2)
    requires a != b
    ensures Sub(a, b) != Zero
  {
  }

  lemma OffsetLength(p: Vector2, u: Vector2, s: real, r: Vector2)
    requires NormSq(u) == 1.0 && r == Add(p, Scale(u, s))
    ensures DistSq(r, p) == Sq(s)
  {
    assert Sub(r, p) == Scale(u, s);
    NormSqScale(u, s);
  }

  /** Nothing clamps the step to the target: when `speed * dt` exceeds the
      remaining distance, the human lands beyond the target, still moving. */
  lemma StepOvershoots(m: Mover, speed: real, dt: real, sqrt: real -> real)
    requires IsSqrt(sqrt)
    requires IsMoving(m) && Sq(ArrivalRadius) <= DistSq(m.position, m.target.value) < Sq(speed * dt)
    ensures var r := Step(m, speed, dt, sqrt);
      IsMoving(r) && r.target == m.target &&
      DistSq(m.target.value, m.position) < DistSq(r.position, m.position)
  {
    StepDistance(m, speed, dt, sqrt);
    DistSqSymmetric(m.target.value, m.position);
  }

  /** A step of exactly the remaining distance lands on the target but the
      human is still moving: arrival is only detected, and the target cleared,
      by the following tick. */
  lemma ArrivalTakesTwoTicks(m: Mover, speed: real, dt: real, sqrt: real -> real)
    requires IsSqrt(sqrt)
    requires IsMoving(m) && Sq(ArrivalRadius) <= DistSq(m.position, m.target.value)
    requires speed * dt == Length(Sub(m.target.value, m.position), sqrt)
    ensures Step(m, speed, dt, sqrt) == Mover(m.target.value, m.target, Moving)
    ensures Step(Step(m, speed, dt, sqrt), speed, dt, sqrt) == Mover(m.target.value, None, Idle)
  {
    var t, p := m.target.value, m.position;
    var r := Step(m, speed, dt, sqrt);
    var v := Sub(t, p);
    assert p != t;
    SubNonZero(t, p);
    assert r.position == Add(p, Scale(Normalize(v, sqrt), Length(v, sqrt)));
    assert r.position == Add(p, v);
    assert r.position == t;
    assert DistSq(r.position, t) < Sq(ArrivalRadius);
  }

  /** Once idle, further ticks change nothing until a new target is set. */
  lemma StepArrivedIsFixed(m: Mover, speed: real, dt: real, sqrt: real -> real)
    requires IsSqrt(sqrt)
    requires IsMoving(m) && DistSq(m.position, m.target.value) < Sq(ArrivalRadius)
    ensures var r := Step(m, speed, dt, sqrt);
      r.position == m.target.value && !IsMoving(r) && Step(r, speed, dt, sqrt) == r
  {
  }

  // ---------------------------------------------------------------------------
  // The speech bubble.

  /** The bubble advances only while idle: it shows once its interval has
      elapsed and, `BubbleDuration` later, hides and takes the next interval.
      Any other state resets the timer and hides the bubble. */
  function BubbleStep(b: Bubble, state: HumanState, dt: real, next: real): (r: Bubble)
    ensures state != Idle ==> r == Bubble(0.0, false, b.interval)
    ensures state == Idle && b.timer + dt < b.interval ==> r == b.(timer := b.timer + dt)
    ensures state == Idle && b.interval <= b.timer + dt < b.interval + BubbleDuration ==>
      r == Bubble(b.timer + dt, true, b.interval)
    ensures state == Idle && b.interval + BubbleDuration <= b.timer + dt ==>
      r == Bubble(0.0, false, next)
  {
    if state == Idle then
      var timer := b.timer + dt;
      if timer >= b.interval then
        if timer >= b.interval + BubbleDuration then
          Bubble(0.0, false, next)
        else
          Bubble(timer, true, b.interval)
      else
        b.(timer := timer)
    else
      Bubble(0.0, false, b.interval)
  }

  /** A shown bubble is within its display window. */
  ghost predicate BubbleOk(b: Bubble)
  {
    b.show ==> b.interval <= b.timer < b.interval + BubbleDuration
  }

  lemma BubbleStepKeepsOk(b: Bubble, state: HumanState, dt: real, next: real)
    requires BubbleOk(b) && 0.0 <= dt
    ensures BubbleOk(BubbleStep(b, state, dt, next))
  {
  }

  // ---------------------------------------------------------------------------
  // Collision avoidance.

  /** One coordinate of the push away from a peer at distance `d`, where
      `delta` is that coordinate of the offset from the peer: the unit offset
      scaled by how far inside `AvoidanceRadius` the peer is, times `PushForce`,
      over `AvoidanceRadius`. */
  function PushComponent(delta: real, d: real): real
    requires 0.0 < d
  {
    (delta / d) * (AvoidanceRadius - d) * PushForce / AvoidanceRadius
  }

  /** `p` pushed away from a peer at `q`, when the two are at a distance
      strictly between 0 and `AvoidanceRadius`; otherwise `p` unchanged. */
  function Push(p: Vector2, q: Vector2, sqrt: real -> real): (r: Vector2)
    requires IsSqrt(sqrt)
    ensures !(0.0 < DistSq(p, q) < Sq(AvoidanceRadius)) ==> r == p
    ensures 0.0 < DistSq(p, q) < Sq(AvoidanceRadius) ==> DistSq(p, q) < DistSq(r, q)
  {
    var dx := p.x - q.x;
    var dy := p.y - q.y;
    var distance := Distance(p, q, sqrt);
    DistanceBelow(p, q, AvoidanceRadius, sqrt);
    if distance < AvoidanceRadius && distance > 0.0 then
      var r := Vec(p.x + PushComponent(dx, distance), p.y + PushComponent(dy, distance));
      PushMovesAway(p, q, distance, r);
      r
    else
      p
  }

  /** The push is a stretch of `p - q` by a factor greater than 1. */
  lemma PushMovesAway(p: Vector2, q: Vector2, d: real, r: Vector2)
    requires 0.0 < d < AvoidanceRadius && Sq(d) == DistSq(p, q)
    requires r == Vec(p.x + PushComponent(p.x - q.x, d), p.y + PushComponent(p.y - q.y, d))
    ensures exists f :: 1.0 < f && Sub(r, q) == Scale(Sub(p, q), f)
    ensures DistSq(p, q) < DistSq(r, q)
  {
    var f := 1.0 + (AvoidanceRadius - d) / (6.0 * d);
    StretchFactor(p.x - q.x, d);
    StretchFactor(p.y - q.y, d);
    assert Sub(r, q) == Scale(Sub(p, q), f);
    NormSqScale(Sub(p, q), f);
    assert 1.0 < f by {
      assert 0.0 < (AvoidanceRadius - d) / (6.0 * d);
    }
    SqLess(1.0, f);
    SqPos(d);
    MulPos(Sq(f) - 1.0, DistSq(p, q), (Sq(f) - 1.0) * DistSq(p, q));
  }

  lemma StretchFactor(e: real, d: real)
    requires 0.0 < d
    ensures e + PushComponent(e, d) == e * (1.0 + (AvoidanceRadius - d) / (6.0 * d))
  {
    var u := e / d;
    assert e == u * d;
  }

  /** A push never brings `p` closer to the peer it is pushed from. */
  lemma PushNeverCloser(p: Vector2, q: Vector2, sqrt: real -> real)
    requires IsSqrt(sqrt)
    ensures DistSq(p, q) <= DistSq(Push(p, q, sqrt), q)
  {
  }

  /** `avoidCollision` for the human `self` at `p`, against the first `n` of the
      humans with ids `ids` at positions `ps`: each peer with another id pushes
      the position as updated by the peers before it. */
  function Avoid(self: string, p: Vector2, ids: seq<string>, ps: seq<Vector2>, n: nat,
                 sqrt: real -> real): Vector2
    requires IsSqrt(sqrt) && |ids| == |ps| && n <= |ps|
  {
    if n == 0 then p
    else
      var p' := Avoid(self, p, ids, ps, n - 1, sqrt);
      if ids[n - 1] == self then p' else Push(p', ps[n - 1], sqrt)
  }

  /** The avoidance pass of a tick: the humans take their turns in order, each
      seeing the positions the earlier ones have already reached. */
  function AvoidPass(ids: seq<string>, ps: seq<Vector2>, k: nat, sqrt: real -> real): (r: seq<Vector2>)
    requires IsSqrt(sqrt) && |ids| == |ps| && k <= |ps|
    ensures |r| == |ps|
    ensures forall i :: k <= i < |ps| ==> r[i] == ps[i]
  {
    if k == 0 then ps
    else
      var qs := AvoidPass(ids, ps, k - 1, sqrt);
      qs[k - 1 := Avoid(ids[k - 1], qs[k - 1], ids, qs, |qs|, sqrt)]
  }

  /** One more turn of the avoidance pass. */
  lemma AvoidPassNext(ids: seq<string>, ps: seq<Vector2>, k: nat, sqrt: real -> real)
    requires IsSqrt(sqrt) && |ids| == |ps| && k < |ps|
    ensures var qs := AvoidPass(ids, ps, k, sqrt);
      AvoidPass(ids, ps, k + 1, sqrt) == qs[k := Avoid(ids[k], qs[k], ids, qs, |qs|, sqrt)]
  {
  }

  /** No peer other than `self` lies strictly within the avoidance radius of `p`. */
  ghost predicate Clear(self: string, p: Vector2, ids: seq<string>, ps: seq<Vector2>, n: nat)
    requires |ids| == |ps| && n <= |ps|
  {
    forall j :: 0 <= j < n && ids[j] != self ==> !(0.0 < DistSq(p, ps[j]) < Sq(AvoidanceRadius))
  }

  /** A human with no close peer is not moved by its avoidance turn. */
  lemma {:induction false} AvoidClear(self: string, p: Vector2, ids: seq<string>, ps: seq<Vector2>, n: nat,
                                      sqrt: real -> real)
    requires IsSqrt(sqrt) && |ids| == |ps| && n <= |ps|
    requires Clear(self, p, ids, ps, n)
    ensures Avoid(self, p, ids, ps, n, sqrt) == p
  {
    if n > 0 {
      AvoidClear(self, p, ids, ps, n - 1, sqrt);
    }
  }

  /** When no two humans with different ids are strictly within the avoidance
      radius, the avoidance pass moves nobody. */
  lemma {:induction false} AvoidPassSpread(ids: seq<string>, ps: seq<Vector2>, k: nat, sqrt: real -> real)
    requires IsSqrt(sqrt) && |ids| == |ps| && k <= |ps|
    requires forall i :: 0 <= i < |ps| ==> Clear(ids[i], ps[i], ids, ps, |ps|)
    ensures AvoidPass(ids, ps, k, sqrt) == ps
  {
    if k > 0 {
      AvoidPassSpread(ids, ps, k - 1, sqrt);
      AvoidPassStill(ids, ps, k - 1, sqrt);
    }
  }

  /** A turn of a human with no close peer leaves the positions as they were. */
  lemma AvoidPassStill(ids: seq<string>, ps: seq<Vector2>, k: nat, sqrt: real -> real)
    requires IsSqrt(sqrt) && |ids| == |ps| && k < |ps|
    requires AvoidPass(ids, ps, k, sqrt) == ps && Clear(ids[k], ps[k], ids, ps, |ps|)
    ensures AvoidPass(ids, ps, k + 1, sqrt) == ps
  {
    AvoidClear(ids[k], ps[k], ids, ps, |ps|, sqrt);
    assert ps[k := ps[k]] == ps;
  }

  /** Two humans with different ids closer than the avoidance radius end the
      pass strictly further apart: the first is pushed away, and the second is
      never pushed back towards it. */
  lemma TwoHumansSeparate(a: string, b: string, p: Vector2, q: Vector2, sqrt: real -> real)
    requires IsSqrt(sqrt) && a != b
    requires 0.0 < DistSq(p, q) < Sq(AvoidanceRadius)
    ensures var r := AvoidPass([a, b], [p, q], 2, sqrt);
      DistSq(p, q) < DistSq(r[0], r[1])
  {
    var ids, ps := [a, b], [p, q];
    var p1 := Push(p, q, sqrt);
    assert Avoid(a, p, ids, ps, 1, sqrt) == p;
    assert Avoid(a, p, ids, ps, 2, sqrt) == p1;
    assert AvoidPass(ids, ps, 1, sqrt) == [p1, q];
    var qs := [p1, q];
    var q1 := Push(q, p1, sqrt);
    assert Avoid(b, q, ids, qs, 1, sqrt) == q1;
    assert Avoid(b, q, ids, qs, 2, sqrt) == q1;
    assert AvoidPass(ids, ps, 2, sqrt) == [p1, q1];
    PushNeverCloser(q, p1, sqrt);
    DistSqSymmetric(q, p1);
    DistSqSymmetric(q1, p1);
  }
}
