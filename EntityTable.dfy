/** The entity table: an id-to-entity map that remembers insertion order, as a
    JavaScript `Map` does.  Overwriting an id keeps its slot; a new id goes last. */
module EntityTable {
  import opened Geometry
  import opened Motion
  import opened Entities

  predicate Distinct<T(==)>(s: seq<T>)
  {
    forall i, j :: 0 <= i < j < |s| ==> s[i] != s[j]
  }

  /** `r` is `s` with some elements left out and the rest in their original order. */
  predicate SubseqOf<T(==)>(r: seq<T>, s: seq<T>)
    decreases |s|
  {
    if r == [] then true
    else if s == [] then false
    else if r[0] == s[0] then SubseqOf(r[1..], s[1..])
    else SubseqOf(r, s[1..])
  }

  /** `s` without `x`, the rest in order. */
  function Without(s: seq<string>, x: string): (r: seq<string>)
    ensures forall y :: y in r <==> y in s && y != x
    ensures SubseqOf(r, s)
    ensures Distinct(s) ==> Distinct(r)
    ensures x !in s ==> r == s
  {
    if s == [] then []
    else if s[0] == x then Without(s[1..], x)
    else
      DistinctTail(s);
      [s[0]] + Without(s[1..], x)
  }

  lemma DistinctTail<T>(s: seq<T>)
    requires s != []
    ensures Distinct(s) ==> Distinct(s[1..]) && s[0] !in s[1..]
  {
  }

  /** A duplicate-free sequence has as many elements as the set of its elements. */
  lemma {:induction false} DistinctCard<T>(s: seq<T>)
    requires Distinct(s)
    ensures |set x | x in s| == |s|
  {
    if s != [] {
      var rest := s[1..];
      DistinctCard(rest);
      DistinctTail(s);
      assert (set x | x in s) == (set x | x in rest) + {s[0]};
    }
  }

  /** The entities of `es` of type `t`, in order. */
  function OfType(es: seq<Entity>, t: EntityType): (r: seq<Entity>)
    ensures forall e :: e in r ==> e in es && e.kind == t
    ensures forall e :: e in es && e.kind == t ==> e in r
    ensures SubseqOf(r, es)
  {
    if es == [] then []
    else if es[0].kind == t then [es[0]] + OfType(es[1..], t)
    else OfType(es[1..], t)
  }

  /** The entities of `es` whose position lies in the closed box
      `[minX, maxX] x [minY, maxY]`, in order. */
  function InRange(es: seq<Entity>, minX: real, maxX: real, minY: real, maxY: real): (r: seq<Entity>)
    reads es
    ensures forall e :: e in r ==>
      e in es && minX <= e.position.x <= maxX && minY <= e.position.y <= maxY
    ensures forall e :: e in es && minX <= e.position.x <= maxX && minY <= e.position.y <= maxY ==>
      e in r
    ensures SubseqOf(r, es)
  {
    if es == [] then []
    else
      var pos := es[0].position;
      var rest := InRange(es[1..], minX, maxX, minY, maxY);
      if pos.x >= minX && pos.x <= maxX && pos.y >= minY && pos.y <= maxY then [es[0]] + rest
      else rest
  }

  /** The index of the first entity of `es` that contains `point`, or `|es|`. */
  function FirstHit(es: seq<Entity>, point: Vector2, sqrt: real -> real, radius: real): (i: nat)
    reads es
    requires IsSqrt(sqrt)
    ensures i <= |es|
    ensures forall j :: 0 <= j < i ==> !es[j].ContainsPoint(point, sqrt, radius)
    ensures i < |es| ==> es[i].ContainsPoint(point, sqrt, radius)
  {
    if es == [] then 0
    else if es[0].ContainsPoint(point, sqrt, radius) then 0
    else 1 + FirstHit(es[1..], point, sqrt, radius)
  }

  /** What one entity's `update` does, relative to the state before the table's update. */
  twostate predicate Ticked(e: Entity, dt: real, sqrt: real -> real, next: real)
    reads e
    requires IsSqrt(sqrt)
  {
    (e.kind == HumanType ==>
       e.MotionState() == Step(old(e.MotionState()), e.speed, dt, sqrt) &&
       e.bubble == BubbleStep(old(e.bubble), old(e.state), dt, next)) &&
    (e.kind == ResourceType ==>
       e.position == old(e.position) && e.target == old(e.target) &&
       e.state == old(e.state) && e.bubble == old(e.bubble)) &&
    e.selected == old(e.selected) && e.amount == old(e.amount)
  }

  class EntityManager {
    /** The ids in insertion order. */
    var order: seq<string>
    var table: map<string, Entity>

    /** `order` lists each stored id once, and each entity is stored under its own id. */
    ghost predicate Valid()
      reads this
    {
      Distinct(order) &&
      (forall k :: k in table <==> k in order) &&
      (forall k :: k in table ==> table[k].id == k)
    }

    constructor()
      ensures Valid() && order == [] && table == map[]
    {
      order := [];
      table := map[];
    }

    /** Stores `e` under its id, replacing any entity stored there. */
    method AddEntity(e: Entity)
      requires Valid()
      modifies this
      ensures Valid()
      ensures table == old(table)[e.id := e]
      ensures order == if e.id in old(table) then old(order) else old(order) + [e.id]
      ensures GetEntity(e.id) == Some(e)
      ensures Count() == if e.id in old(table) then old(Count()) else old(Count()) + 1
    {
      if e.id !in table {
        order := order + [e.id];
      }
      table := table[e.id := e];
    }

    /** Removes the entity stored under `id`; says whether there was one. */
    method RemoveEntity(id: string) returns (removed: bool)
      requires Valid()
      modifies this
      ensures Valid()
      ensures removed <==> id in old(table)
      ensures table == old(table) - {id}
      ensures order == Without(old(order), id)
      ensures GetEntity(id) == None
    {
      removed := id in table;
      table := table - {id};
      order := Without(order, id);
    }

    /** Each stored entity is the one stored under its own id. */
    lemma StoredUnderOwnId()
      requires Valid()
      ensures forall e :: e in table.Values ==> e.id in table && table[e.id] == e
    {
      forall e | e in table.Values
        ensures e.id in table && table[e.id] == e
      {
        var k :| k in table && table[k] == e;
      }
    }

    /** A table without keys has no ids in its order either. */
    lemma NoKeysMeansEmpty()
      requires Valid() && forall k :: k !in table
      ensures table == map[] && order == []
    {
      assert Count() == 0;
    }

    function GetEntity(id: string): (r: Option<Entity>)
      reads this
      ensures r.Some? <==> id in table
      ensures r.Some? ==> r.value == table[id]
    {
      if id in table then Some(table[id]) else None
    }

    /** The stored entities in insertion order. */
    function GetAllEntities(): (r: seq<Entity>)
      reads this
      requires Valid()
      ensures |r| == |order|
      ensures forall i :: 0 <= i < |order| ==> r[i] == table[order[i]]
      ensures forall e :: e in r ==> e in table.Values
      ensures forall e :: e in table.Values ==> e in r
    {
      var r := seq(|order|, i requires 0 <= i < |order| && order[i] in table reads this => table[order[i]]);
      assert forall e :: e in table.Values ==> e in r by {
        forall e | e in table.Values
          ensures e in r
        {
          var k :| k in table && table[k] == e;
          var i :| 0 <= i < |order| && order[i] == k;
          assert r[i] == e;
        }
      }
      r
    }

    function GetByType(t: EntityType): (r: seq<Entity>)
      reads this
      requires Valid()
      ensures forall e :: e in r ==> e in table.Values && e.kind == t
      ensures forall e :: e in table.Values && e.kind == t ==> e in r
      ensures SubseqOf(r, GetAllEntities())
    {
      OfType(GetAllEntities(), t)
    }

    /** The entities inside the closed box spanned by the corners `a` and `b`,
        given in either order. */
    function GetEntitiesInRect(a: Vector2, b: Vector2): (r: seq<Entity>)
      reads this, table.Values
      requires Valid()
      ensures forall e :: e in r ==> e in table.Values && InBox(e.position, a, b)
      ensures forall e :: e in table.Values && InBox(e.position, a, b) ==> e in r
    {
      var minX := Min(a.x, b.x);
      var maxX := Max(a.x, b.x);
      var minY := Min(a.y, b.y);
      var maxY := Max(a.y, b.y);
      InRange(GetAllEntities(), minX, maxX, minY, maxY)
    }

    /** The entities in a box come in stored order. */
    lemma RectInStoredOrder(a: Vector2, b: Vector2)
      requires Valid()
      ensures SubseqOf(GetEntitiesInRect(a, b), GetAllEntities())
    {
      var all := GetAllEntities();
      assert SubseqOf(InRange(all, Min(a.x, b.x), Max(a.x, b.x), Min(a.y, b.y), Max(a.y, b.y)), all);
    }

    lemma RectCornersCommute(a: Vector2, b: Vector2)
      requires Valid()
      ensures GetEntitiesInRect(a, b) == GetEntitiesInRect(b, a)
    {
      assert Min(a.x, b.x) == Min(b.x, a.x) && Max(a.x, b.x) == Max(b.x, a.x);
      assert Min(a.y, b.y) == Min(b.y, a.y) && Max(a.y, b.y) == Max(b.y, a.y);
    }

    /** The first entity, in insertion order, whose hit test contains `point`. */
    function GetEntityAtPoint(point: Vector2, sqrt: real -> real, radius: real := HitRadius): (r: Option<Entity>)
      reads this, table.Values
      requires Valid() && IsSqrt(sqrt)
      ensures r.None? <==> forall e :: e in table.Values ==> !e.ContainsPoint(point, sqrt, radius)
      ensures r.Some? ==>
        exists i :: 0 <= i < |order| && table[order[i]] == r.value &&
          r.value.ContainsPoint(point, sqrt, radius) &&
          forall j :: 0 <= j < i ==> !table[order[j]].ContainsPoint(point, sqrt, radius)
    {
      var all := GetAllEntities();
      var i := FirstHit(all, point, sqrt, radius);
      if i < |all| then Some(all[i]) else None
    }

    /** Runs `update` once on every stored entity, in insertion order; `redraw`
        supplies each human's next random speech-bubble interval. */
    method Update(dt: real, sqrt: real -> real, redraw: string -> real)
      requires Valid() && IsSqrt(sqrt)
      modifies table.Values
      ensures forall e :: e in table.Values ==> Ticked(e, dt, sqrt, redraw(e.id))
    {
      for i := 0 to |order|
        invariant forall j :: 0 <= j < i ==> Ticked(table[order[j]], dt, sqrt, redraw(order[j]))
        invariant forall j :: i <= j < |order| ==> unchanged(table[order[j]])
      {
        var e := table[order[i]];
        assert forall j :: 0 <= j < |order| && j != i ==> table[order[j]] != e;
        e.Update(dt, sqrt, redraw(e.id));
      }
      forall e | e in table.Values
        ensures Ticked(e, dt, sqrt, redraw(e.id))
      {
        var k :| k in table && table[k] == e;
        var j :| 0 <= j < |order| && order[j] == k;
      }
    }

    method Clear()
      modifies this
      ensures Valid() && order == [] && table == map[]
      ensures Count() == 0
    {
      order := [];
      table := map[];
    }

    /** The number of stored entities, which is the length of the id order. */
    function Count(): (n: nat)
      reads this
      requires Valid()
      ensures n == |order|
    {
      assert table.Keys == set k | k in order;
      DistinctCard(order);
      |table|
    }
  }
}
