/** The entities of the world.  Every entity has an id, a type, a position and a
    `selected` flag; humans add motion and a speech bubble, resources a stock.
    The two kinds share one class, told apart by the constant `kind`. */
module Entities {
  import opened Geometry
  import opened Motion
  import Stock

  datatype EntityType = HumanType | ResourceType

  /** The default hit-test radius. */
  const HitRadius: real := 10.0

  class Entity {
    const id: string
    const kind: EntityType
    var position: Vector2
    var selected: bool

    // Humans.
    const speed: real
    var target: Option<Vector2>
    var state: HumanState
    var bubble: Bubble

    // Resources.
    const resourceType: string
    var amount: int

    /** A human; `interval` is the first speech-bubble interval, drawn at random by the caller. */
    constructor Human(id: string, position: Vector2, speed: real, target: Option<Vector2>,
                      state: HumanState, interval: real)
      ensures this.id == id && kind == HumanType && this.position == position && !selected
      ensures this.speed == speed && this.target == target && this.state == state
      ensures bubble == Bubble(0.0, false, interval)
    {
      this.id := id;
      kind := HumanType;
      this.position := position;
      selected := false;
      this.speed := speed;
      this.target := target;
      this.state := state;
      bubble := Bubble(0.0, false, interval);
      resourceType := "";
      amount := 0;
    }

    constructor Resource(id: string, position: Vector2, resourceType: string, amount: int)
      ensures this.id == id && kind == ResourceType && this.position == position && !selected
      ensures this.resourceType == resourceType && this.amount == amount
      ensures target == None && state == Idle
    {
      this.id := id;
      kind := ResourceType;
      this.position := position;
      selected := false;
      speed := 0.0;
      target := None;
      state := Idle;
      bubble := Bubble(0.0, false, 0.0);
      this.resourceType := resourceType;
      this.amount := amount;
    }

    /** The fields the motion step reads and writes. */
    function MotionState(): Mover
      reads this
    {
      Mover(position, target, state)
    }

    function DistanceTo(other: Vector2, sqrt: real -> real): (r: real)
      reads this
      requires IsSqrt(sqrt)
      ensures 0.0 <= r && Sq(r) == DistSq(position, other)
    {
      var dx := position.x - other.x;
      var dy := position.y - other.y;
      sqrt(dx * dx + dy * dy)
    }

    /** The hit test is inclusive: a point exactly `radius` away is inside. */
    function ContainsPoint(point: Vector2, sqrt: real -> real, radius: real := HitRadius): (r: bool)
      reads this
      requires IsSqrt(sqrt)
      ensures r <==> 0.0 <= radius && DistSq(position, point) <= Sq(radius)
    {
      var d := DistanceTo(point, sqrt);
      if 0.0 <= radius then CompareRoot(d, radius); d <= radius
      else d <= radius
    }

    /** An entity contains its own position for every radius of at least 0. */
    lemma ContainsOwnPosition(sqrt: real -> real, radius: real)
      requires IsSqrt(sqrt) && 0.0 <= radius
      ensures ContainsPoint(position, sqrt, radius)
    {
      SqPos(radius);
    }

    function ScreenPosition(v: Viewport): (r: Vector2)
      reads this
      ensures r == WorldToScreen(v, position)
      ensures v.zoom != 0.0 ==> ScreenToWorld(v, r) == position
    {
      Vec((position.x - v.x) * v.zoom, (position.y - v.y) * v.zoom)
    }

    // -------------------------------------------------------------------------
    // Humans.

    method SetTarget(t: Vector2)
      modifies this
      ensures target == Some(t) && state == Moving && IsMoving()
      ensures position == old(position) && selected == old(selected)
      ensures bubble == old(bubble) && amount == old(amount)
    {
      target := Some(t);
      state := Moving;
    }

    method Stop()
      modifies this
      ensures target == None && state == Idle && !IsMoving()
      ensures position == old(position) && selected == old(selected)
      ensures bubble == old(bubble) && amount == old(amount)
    {
      target := None;
      state := Idle;
    }

    /** `isMoving()`, defined once as `Motion.IsMoving` on this entity's motion fields. */
    predicate IsMoving()
      reads this
    {
      Motion.IsMoving(MotionState())
    }

    function GetTarget(): (r: Option<Vector2>)
      reads this
      ensures r.Some? <==> target.Some?
      ensures r.Some? ==> r.value == target.value
    {
      if target.Some? then Some(target.value) else None
    }

    /** One tick.  A human first advances its speech bubble (`nextInterval` is
        the fresh random interval a finished bubble takes), then moves; a
        resource does nothing. */
    method Update(dt: real, sqrt: real -> real, nextInterval: real)
      requires IsSqrt(sqrt)
      modifies this
      ensures kind == HumanType ==>
        MotionState() == Step(old(MotionState()), speed, dt, sqrt) &&
        bubble == BubbleStep(old(bubble), old(state), dt, nextInterval)
      ensures kind == ResourceType ==>
        position == old(position) && target == old(target) && state == old(state) &&
        bubble == old(bubble)
      ensures selected == old(selected) && amount == old(amount)
    {
      if kind == HumanType {
        UpdateBubble(dt, nextInterval);
        UpdateMotion(dt, sqrt);
      }
    }

    /** The speech-bubble part of a human's tick. */
    method UpdateBubble(dt: real, nextInterval: real)
      modifies this`bubble
      ensures bubble == BubbleStep(old(bubble), state, dt, nextInterval)
    {
      if state == Idle {
        var timer := bubble.timer + dt;
        bubble := bubble.(timer := timer);
        if timer >= bubble.interval {
          bubble := bubble.(show := true);
          if timer >= bubble.interval + BubbleDuration {
            bubble := Bubble(0.0, false, nextInterval);
          }
        }
      } else {
        bubble := bubble.(timer := 0.0, show := false);
      }
    }

    /** The motion part of a human's tick. */
    method UpdateMotion(dt: real, sqrt: real -> real)
      requires IsSqrt(sqrt)
      modifies this`position, this`target, this`state
      ensures MotionState() == Step(old(MotionState()), speed, dt, sqrt)
    {
      if target.Some? && state == Moving {
        var t := target.value;
        var dx := t.x - position.x;
        var dy := t.y - position.y;
        var distance := Distance(t, position, sqrt);
        if distance < ArrivalRadius {
          position := t;
          target := None;
          state := Idle;
        } else {
          var moveDistance := speed * dt;
          position := Vec(position.x + (dx / distance) * moveDistance,
                          position.y + (dy / distance) * moveDistance);
        }
      }
    }

    /** `avoidCollision`: only this entity's position changes; peers with this
        entity's id are skipped, the others push it in turn. */
    method AvoidCollision(peers: seq<Entity>, sqrt: real -> real)
      requires IsSqrt(sqrt)
      modifies this
      ensures position == Avoid(id, old(position), Ids(peers), old(Positions(peers)), |peers|, sqrt)
      ensures selected == old(selected) && target == old(target) && state == old(state)
      ensures bubble == old(bubble) && amount == old(amount)
    {
      ghost var ids, ps := Ids(peers), Positions(peers);
      ghost var start := position;
      for j := 0 to |peers|
        invariant position == Avoid(id, start, ids, ps, j, sqrt)
        invariant selected == old(selected) && target == old(target) && state == old(state)
        invariant bubble == old(bubble) && amount == old(amount)
      {
        var other := peers[j];
        if other.id != id {
          assert other != this && other.position == ps[j];
          PushAwayFrom(other.position, sqrt);
        }
      }
    }

    /** The body of `avoidCollision` for one peer at `q`: a peer strictly
        closer than `AvoidanceRadius`, and not at the same spot, pushes this
        entity away. */
    method PushAwayFrom(q: Vector2, sqrt: real -> real)
      requires IsSqrt(sqrt)
      modifies this
      ensures position == Push(old(position), q, sqrt)
      ensures selected == old(selected) && target == old(target) && state == old(state)
      ensures bubble == old(bubble) && amount == old(amount)
    {
      ghost var before := position;
      var dx := position.x - q.x;
      var dy := position.y - q.y;
      var distance := Distance(position, q, sqrt);
      if distance < AvoidanceRadius && distance > 0.0 {
        var pushX := PushComponent(dx, distance);
        var pushY := PushComponent(dy, distance);
        position := Vec(position.x + pushX, position.y + pushY);
      }
      PushStep(before, q, distance, position, sqrt);
    }

    // -------------------------------------------------------------------------
    // Resources.

    /** Takes `Harvested(amount, request)` from the stock and returns it. */
    method Harvest(request: int := Stock.DefaultRequest) returns (harvested: int)
      requires kind == ResourceType
      modifies this
      ensures harvested == Stock.Harvested(old(amount), request)
      ensures amount == old(amount) - harvested
      ensures position == old(position) && selected == old(selected)
      ensures target == old(target) && state == old(state) && bubble == old(bubble)
    {
      harvested := if request <= amount then request else amount;
      amount := amount - harvested;
    }

    /** `canHarvest()`, defined once as `Stock.CanHarvest` on this entity's amount. */
    predicate CanHarvest()
      reads this
    {
      Stock.CanHarvest(amount)
    }

    /** `isDepleted()`, defined once as `Stock.IsDepleted` on this entity's amount. */
    predicate IsDepleted()
      reads this
    {
      Stock.IsDepleted(amount)
    }
  }

  /** The update `avoidCollision` applies for one peer is `Push`. */
  lemma PushStep(p: Vector2, q: Vector2, distance: real, r: Vector2, sqrt: real -> real)
    requires IsSqrt(sqrt) && distance == Distance(p, q, sqrt)
    requires distance < AvoidanceRadius && distance > 0.0 ==>
      r == Vec(p.x + PushComponent(p.x - q.x, distance), p.y + PushComponent(p.y - q.y, distance))
    requires !(distance < AvoidanceRadius && distance > 0.0) ==> r == p
    ensures r == Push(p, q, sqrt)
  {
  }

  /** The ids of a list of entities, in order. */
  function Ids(es: seq<Entity>): (r: seq<string>)
    ensures |r| == |es| && forall i :: 0 <= i < |es| ==> r[i] == es[i].id
  {
    if es == [] then [] else Ids(es[..|es| - 1]) + [es[|es| - 1].id]
  }

  /** The positions of a list of entities, in order. */
  function Positions(es: seq<Entity>): (r: seq<Vector2>)
    reads es
    ensures |r| == |es| && forall i {:trigger r[i]} :: 0 <= i < |es| ==> r[i] == es[i].position
  {
    if es == [] then [] else Positions(es[..|es| - 1]) + [es[|es| - 1].position]
  }
}
