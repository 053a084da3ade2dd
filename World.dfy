/** The world: the entity table, the selection, the drag box, the viewport and
    the tick that moves everything. */
module World {
  import opened Geometry
  import opened Motion
  import opened Entities
  import opened EntityTable

  /** `Set.add` on an insertion-ordered set: a new element goes last, a present one stays put. */
  function Insert(s: seq<string>, x: string): seq<string>
  {
    if x in s then s else s + [x]
  }

  /** `Insert` adds exactly `x`, keeps the elements distinct and leaves a set
      that already holds `x` as it was. */
  lemma InsertFacts(s: seq<string>, x: string)
    ensures forall y :: y in Insert(s, x) <==> y in s || y == x
    ensures Distinct(s) ==> Distinct(Insert(s, x))
    ensures x in s ==> Insert(s, x) == s
  {
  }

  /** `Insert` each element of `xs` in turn. */
  function AddAll(s: seq<string>, xs: seq<string>): seq<string>
  {
    if xs == [] then s
    else Insert(AddAll(s, xs[..|xs| - 1]), xs[|xs| - 1])
  }

  /** `AddAll` yields the union of `s` and `xs`, and keeps a distinct `s` distinct. */
  lemma {:induction false} AddAllFacts(s: seq<string>, xs: seq<string>)
    ensures forall y :: y in AddAll(s, xs) <==> y in s || y in xs
    ensures Distinct(s) ==> Distinct(AddAll(s, xs))
  {
    if xs != [] {
      var init := xs[..|xs| - 1];
      AddAllFacts(s, init);
      InsertFacts(AddAll(s, init), xs[|xs| - 1]);
      assert xs == init + [xs[|xs| - 1]];
    }
  }

  /** Adding duplicate-free ids to the empty set gives them back in order. */
  lemma {:induction false} AddAllToEmpty(xs: seq<string>)
    requires Distinct(xs)
    ensures AddAll([], xs) == xs
  {
    if xs != [] {
      var init := xs[..|xs| - 1];
      assert Distinct(init);
      AddAllToEmpty(init);
      assert xs[|xs| - 1] !in init;
      assert init + [xs[|xs| - 1]] == xs;
    }
  }

  /** The flags `f` with the flag of `id`, when it has one, set to `v`. */
  function SetFlag(f: map<string, bool>, id: string, v: bool): map<string, bool>
  {
    if id in f then f[id := v] else f
  }

  /** `SetFlag` for each id of `ids` in turn. */
  function SetFlags(f: map<string, bool>, ids: seq<string>, v: bool): map<string, bool>
  {
    if ids == [] then f
    else SetFlag(SetFlags(f, ids[..|ids| - 1], v), ids[|ids| - 1], v)
  }

  /** `SetFlag` changes the flag of `id` only, and adds no id. */
  lemma SetFlagFacts(f: map<string, bool>, id: string, v: bool)
    ensures SetFlag(f, id, v).Keys == f.Keys
    ensures forall k :: k in f ==> SetFlag(f, id, v)[k] == if k == id then v else f[k]
  {
  }

  /** After `SetFlags`, the flags of the listed ids are `v`, the others as
      they were, and no id is added. */
  lemma {:induction false} SetFlagsFacts(f: map<string, bool>, ids: seq<string>, v: bool)
    ensures SetFlags(f, ids, v).Keys == f.Keys
    ensures forall k :: k in f ==> SetFlags(f, ids, v)[k] == if k in ids then v else f[k]
  {
    if ids != [] {
      var init := ids[..|ids| - 1];
      SetFlagsFacts(f, init, v);
      SetFlagFacts(SetFlags(f, init, v), ids[|ids| - 1], v);
      assert ids == init + [ids[|ids| - 1]];
    }
  }

  /** Extending a prefix of `ids` by one id. */
  lemma PrefixStep(s: seq<string>, f: map<string, bool>, ids: seq<string>, j: nat, v: bool)
    requires j < |ids|
    ensures AddAll(s, ids[..j + 1]) == Insert(AddAll(s, ids[..j]), ids[j])
    ensures SetFlags(f, ids[..j + 1], v) == SetFlag(SetFlags(f, ids[..j], v), ids[j], v)
  {
    assert ids[..j + 1][..j] == ids[..j];
  }

  /** Every raised flag belongs to a selected id. */
  predicate Sound(f: map<string, bool>, selection: seq<string>)
  {
    forall k :: k in f && f[k] ==> k in selection
  }

  /** Clearing the flags of the selected ids of a sound selection lowers every
      flag, so the empty selection is sound for the result. */
  lemma ClearedSound(f: map<string, bool>, selection: seq<string>)
    requires Sound(f, selection)
    ensures forall k :: k in SetFlags(f, selection, false) ==> !SetFlags(f, selection, false)[k]
    ensures Sound(SetFlags(f, selection, false), [])
  {
    SetFlagsFacts(f, selection, false);
  }

  /** Selecting `id` and raising its flag keeps a selection sound. */
  lemma SelectKeepsSound(f: map<string, bool>, selection: seq<string>, id: string)
    ensures Sound(f, selection) ==> Sound(SetFlag(f, id, true), Insert(selection, id))
  {
    SetFlagFacts(f, id, true);
    InsertFacts(selection, id);
  }

  /** Deselecting `id` and lowering its flag keeps a selection sound. */
  lemma DeselectKeepsSound(f: map<string, bool>, selection: seq<string>, id: string)
    ensures Sound(f, selection) ==> Sound(SetFlag(f, id, false), Without(selection, id))
  {
    SetFlagFacts(f, id, false);
  }

  /** The outcome of a click that hit `h` (whose flag was `wasSelected`), or
      nothing, taking the selection `s0` and flags `f0` to `s1` and `f1`:
      a selected hit with `add` is deselected; any other hit is selected, alone
      or (with `add`) in addition; a miss clears the selection unless `add`
      holds, and an additive miss changes nothing. */
  ghost predicate Clicked(h: Option<Entity>, wasSelected: bool, add: bool,
                          s0: seq<string>, f0: map<string, bool>, s1: seq<string>, f1: map<string, bool>)
  {
    var cleared := SetFlags(f0, s0, false);
    (h.Some? && wasSelected && add ==>
       s1 == Without(s0, h.value.id) && f1 == SetFlag(f0, h.value.id, false)) &&
    (h.Some? && !(wasSelected && add) ==>
       s1 == (if add then Insert(s0, h.value.id) else [h.value.id]) &&
       f1 == SetFlag(if add then f0 else cleared, h.value.id, true)) &&
    (h.None? && !add ==> s1 == [] && f1 == cleared) &&
    (h.None? && add ==> s1 == s0 && f1 == f0)
  }

  /** The ids of `ids` that `table` holds, in order. */
  function Known(ids: seq<string>, table: map<string, Entity>): (r: seq<string>)
    ensures forall k :: k in r <==> k in ids && k in table
    ensures SubseqOf(r, ids)
  {
    if ids == [] then []
    else if ids[0] in table then [ids[0]] + Known(ids[1..], table)
    else Known(ids[1..], table)
  }

  /** The position each human reaches by its own motion step. */
  function SteppedPositions(hs: seq<Entity>, dt: real, sqrt: real -> real): (r: seq<Vector2>)
    reads hs
    requires IsSqrt(sqrt)
    ensures |r| == |hs|
    ensures forall i :: 0 <= i < |hs| ==> r[i] == Step(hs[i].MotionState(), hs[i].speed, dt, sqrt).position
  {
    if hs == [] then []
    else SteppedPositions(hs[..|hs| - 1], dt, sqrt) + [Step(hs[|hs| - 1].MotionState(), hs[|hs| - 1].speed, dt, sqrt).position]
  }

  lemma {:induction false} SubseqDistinct<T>(r: seq<T>, s: seq<T>)
    requires SubseqOf(r, s) && Distinct(s)
    ensures Distinct(r)
    ensures forall x :: x in r ==> x in s
    decreases |s|
  {
    if r != [] && s != [] {
      DistinctTail(s);
      if r[0] == s[0] {
        SubseqDistinct(r[1..], s[1..]);
        assert r == [r[0]] + r[1..];
      } else {
        SubseqDistinct(r, s[1..]);
      }
    }
  }

  class GameWorld {
    const manager: EntityManager
    /** The selected ids, in the order they were added. */
    var selection: seq<string>
    var viewport: Viewport
    var isSelecting: bool
    var selectionStart: Option<Vector2>
    var selectionEnd: Option<Vector2>

    ghost predicate Valid()
      reads this, manager
    {
      manager.Valid() && Distinct(selection) &&
      (isSelecting ==> selectionStart.Some? && selectionEnd.Some?)
    }

    /** A stored entity whose flag is set is in the selection.  The converse
        does not hold: unknown ids can be selected, and an entity replaced
        under a selected id comes in unflagged. */
    ghost predicate SelectionSound()
      reads this`selection, manager`table, manager.table.Values`selected
    {
      Sound(Flags(), selection)
    }

    /** The `selected` flag of each stored entity, by id. */
    ghost function Flags(): (f: map<string, bool>)
      reads manager`table, manager.table.Values`selected
    {
      map k | k in manager.table :: manager.table[k].selected
    }

    constructor()
      ensures Valid() && SelectionSound() && fresh(manager)
      ensures manager.table == map[] && selection == []
      ensures viewport == Viewport(0.0, 0.0, 1.0)
      ensures !isSelecting && selectionStart == None && selectionEnd == None
    {
      manager := new EntityManager();
      selection := [];
      viewport := Viewport(0.0, 0.0, 1.0);
      isSelecting := false;
      selectionStart := None;
      selectionEnd := None;
    }

    // -------------------------------------------------------------------------
    // Entities.

    method AddEntity(e: Entity)
      requires Valid()
      modifies manager
      ensures Valid()
      ensures manager.table == old(manager.table)[e.id := e]
      ensures manager.order == if e.id in old(manager.table) then old(manager.order) else old(manager.order) + [e.id]
      ensures old(SelectionSound()) && (!e.selected || e.id in selection) ==> SelectionSound()
    {
      manager.AddEntity(e);
    }

    /** Drops `id` from the selection, then removes it from the table. */
    method RemoveEntity(id: string) returns (removed: bool)
      requires Valid()
      modifies this, manager
      ensures Valid()
      ensures removed <==> id in old(manager.table)
      ensures manager.table == old(manager.table) - {id}
      ensures manager.order == Without(old(manager.order), id)
      ensures selection == Without(old(selection), id)
      ensures viewport == old(viewport) && isSelecting == old(isSelecting)
      ensures selectionStart == old(selectionStart) && selectionEnd == old(selectionEnd)
      ensures old(SelectionSound()) ==> SelectionSound()
    {
      selection := Without(selection, id);
      removed := manager.RemoveEntity(id);
    }

    function GetEntity(id: string): (r: Option<Entity>)
      reads this, manager
      ensures r == manager.GetEntity(id)
    {
      manager.GetEntity(id)
    }

    function GetAllEntities(): (r: seq<Entity>)
      reads this, manager
      requires Valid()
      ensures r == manager.GetAllEntities()
    {
      manager.GetAllEntities()
    }

    // -------------------------------------------------------------------------
    // Viewport.

    function GetViewport(): Viewport
      reads this
    {
      viewport
    }

    /** Overwrites only the fields that `patch` supplies. */
    method SetViewport(patch: ViewportPatch)
      modifies this`viewport
      ensures viewport == MergeViewport(old(viewport), patch)
    {
      viewport := Viewport(
        if patch.x.Some? then patch.x.value else viewport.x,
        if patch.y.Some? then patch.y.value else viewport.y,
        if patch.zoom.Some? then patch.zoom.value else viewport.zoom);
    }

    function ScreenToWorld(p: Vector2): (r: Vector2)
      reads this
      requires viewport.zoom != 0.0
      ensures Geometry.WorldToScreen(viewport, r) == p
    {
      ScreenWorldRoundTrip(viewport, p);
      Geometry.ScreenToWorld(viewport, p)
    }

    function WorldToScreen(p: Vector2): (r: Vector2)
      reads this
      ensures viewport.zoom != 0.0 ==> Geometry.ScreenToWorld(viewport, r) == p
    {
      Geometry.WorldToScreen(viewport, p)
    }

    // -------------------------------------------------------------------------
    // Selection.

    /** Clears the flag of every stored entity whose id is selected, then empties the selection. */
    method ClearSelection()
      requires Valid()
      modifies this`selection, manager.table.Values`selected
      ensures Valid()
      ensures selection == []
      ensures Flags() == SetFlags(old(Flags()), old(selection), false)
      ensures old(SelectionSound()) ==> SelectionSound()
    {
      ghost var f := Flags();
      for i := 0 to |selection|
        invariant selection == old(selection)
        invariant Flags() == SetFlags(f, selection[..i], false)
      {
        PrefixStep([], f, selection, i, false);
        SetSelected(selection[i], false);
      }
      assert selection[..|selection|] == selection;
      selection := [];
      if Sound(f, old(selection)) {
        ClearedSound(f, old(selection));
      }
    }

    /** `getEntity(id)` and, when there is one, setting its flag to `v`. */
    method SetSelected(id: string, v: bool)
      requires Valid()
      modifies manager.table.Values`selected
      ensures Flags() == SetFlag(old(Flags()), id, v)
    {
      var entity := GetEntity(id);
      if entity.Some? {
        entity.value.selected := v;
        forall k | k in manager.table
          ensures manager.table[k].selected == if k == id then v else old(manager.table[k].selected)
        {
          assert manager.table[k] == entity.value ==> k == id;
        }
      }
    }

    /** Selects `id`, alone or (when `addToSelection`) in addition to the
        current selection.  The id is added even when no entity has it. */
    method SelectEntity(id: string, addToSelection: bool := false)
      requires Valid()
      modifies this`selection, manager.table.Values`selected
      ensures Valid()
      ensures selection == if addToSelection then Insert(old(selection), id) else [id]
      ensures Flags() ==
        SetFlag(if addToSelection then old(Flags()) else SetFlags(old(Flags()), old(selection), false), id, true)
      ensures old(SelectionSound()) ==> SelectionSound()
    {
      if !addToSelection {
        ClearSelection();
      }
      AddSelected(id);
    }

    /** The rest of `selectEntity`: `id` joins the selection and its entity's flag is raised. */
    method AddSelected(id: string)
      requires Valid()
      modifies this`selection, manager.table.Values`selected
      ensures Valid()
      ensures selection == Insert(old(selection), id)
      ensures Flags() == SetFlag(old(Flags()), id, true)
      ensures old(SelectionSound()) ==> SelectionSound()
    {
      SelectKeepsSound(Flags(), selection, id);
      InsertFacts(selection, id);
      selection := Insert(selection, id);
      SetSelected(id, true);
    }

    /** Removes `id` from the selection and clears its entity's flag. */
    method DeselectEntity(id: string)
      requires Valid()
      modifies this`selection, manager.table.Values`selected
      ensures Valid()
      ensures selection == Without(old(selection), id)
      ensures Flags() == SetFlag(old(Flags()), id, false)
      ensures old(SelectionSound()) ==> SelectionSound()
    {
      DeselectKeepsSound(Flags(), selection, id);
      selection := Without(selection, id);
      SetSelected(id, false);
    }

    /** The stored entities of the selected ids, in selection order. */
    function GetSelectedEntities(): (r: seq<Entity>)
      reads this, manager
      requires Valid()
      ensures forall e :: e in r ==> e in manager.table.Values && e.id in selection
      ensures forall k :: k in selection && k in manager.table ==> manager.table[k] in r
      ensures |r| <= |selection|
    {
      StoredOf(selection)
    }

    /** The entities stored under `ids`, in the order of `ids`; unknown ids are skipped. */
    function StoredOf(ids: seq<string>): (r: seq<Entity>)
      reads this, manager
      requires Valid()
      ensures forall e :: e in r ==> e in manager.table.Values && e.id in ids
      ensures forall k :: k in ids && k in manager.table ==> manager.table[k] in r
      ensures |r| <= |ids|
      ensures (forall k :: k in ids ==> k in manager.table) ==>
        |r| == |ids| && forall i :: 0 <= i < |r| ==> r[i] == manager.table[ids[i]]
    {
      if ids == [] then []
      else
        var rest := StoredOf(ids[1..]);
        if ids[0] in manager.table then [manager.table[ids[0]]] + rest else rest
    }

    /** In general, `StoredOf` lists the entity of each known id, in the order
        of `ids`. */
    lemma {:induction false} StoredOfKnown(ids: seq<string>)
      requires Valid()
      ensures var known := Known(ids, manager.table);
        |StoredOf(ids)| == |known| &&
        forall i :: 0 <= i < |known| ==> StoredOf(ids)[i] == manager.table[known[i]]
    {
      if ids != [] {
        StoredOfKnown(ids[1..]);
      }
    }

    function GetSelectedEntityIds(): seq<string>
      reads this
    {
      selection
    }

    // -------------------------------------------------------------------------
    // The drag box.

    method StartSelection(p: Vector2)
      modifies this`isSelecting, this`selectionStart, this`selectionEnd
      ensures isSelecting && selectionStart == Some(p) && selectionEnd == Some(p)
      ensures Flags() == old(Flags())
    {
      isSelecting := true;
      selectionStart := Some(p);
      selectionEnd := Some(p);
    }

    /** Moves the end corner, only while a box is being drawn. */
    method UpdateSelection(p: Vector2)
      modifies this`selectionEnd
      ensures selectionEnd == if old(isSelecting) then Some(p) else old(selectionEnd)
    {
      if isSelecting {
        selectionEnd := Some(p);
      }
    }

    /** The box's corners while one is being drawn. */
    function GetSelectionRect(): (r: Option<(Vector2, Vector2)>)
      reads this, manager
      requires Valid()
      ensures r.Some? <==> isSelecting
      ensures r.Some? ==> Some(r.value.0) == selectionStart && Some(r.value.1) == selectionEnd
    {
      if isSelecting && selectionStart.Some? && selectionEnd.Some? then
        Some((selectionStart.value, selectionEnd.value))
      else
        None
    }

    /** Ends the drag box.  While a box was active, the entities inside it are
        selected, replacing the selection or (with `addToSelection`) adding to
        it; nothing is toggled off in the additive case. */
    method FinishSelection(addToSelection: bool := false)
      requires Valid()
      modifies this`selection, this`isSelecting, this`selectionStart, this`selectionEnd,
               manager.table.Values`selected
      ensures Valid()
      ensures !isSelecting && selectionStart == None && selectionEnd == None
      ensures selection ==
        if old(isSelecting) then
          AddAll(if addToSelection then old(selection) else [],
                 Ids(old(manager.GetEntitiesInRect(selectionStart.value, selectionEnd.value))))
        else old(selection)
      ensures Flags() ==
        if old(isSelecting) then
          SetFlags(if addToSelection then old(Flags()) else SetFlags(old(Flags()), old(selection), false),
                   Ids(old(manager.GetEntitiesInRect(selectionStart.value, selectionEnd.value))), true)
        else old(Flags())
      ensures old(SelectionSound()) ==> SelectionSound()
    {
      if isSelecting {
        SelectBox(selectionStart.value, selectionEnd.value, addToSelection);
      } else {
        EndBox();
      }
    }

    /** Selects the stored entities inside the box with corners `a` and `b`,
        after clearing the selection unless `addToSelection` holds, and
        forgets the drag box. */
    method SelectBox(a: Vector2, b: Vector2, addToSelection: bool)
      requires Valid()
      modifies this`selection, this`isSelecting, this`selectionStart, this`selectionEnd,
               manager.table.Values`selected
      ensures Valid()
      ensures !isSelecting && selectionStart == None && selectionEnd == None
      ensures selection ==
        AddAll(if addToSelection then old(selection) else [], Ids(old(manager.GetEntitiesInRect(a, b))))
      ensures Flags() ==
        SetFlags(if addToSelection then old(Flags()) else SetFlags(old(Flags()), old(selection), false),
                 Ids(old(manager.GetEntitiesInRect(a, b))), true)
      ensures old(SelectionSound()) ==> SelectionSound()
    {
      var inRect := manager.GetEntitiesInRect(a, b);
      SelectAll(inRect, addToSelection);
      EndBox();
    }

    /** Forgets the drag box. */
    method EndBox()
      modifies this`isSelecting, this`selectionStart, this`selectionEnd
      ensures !isSelecting && selectionStart == None && selectionEnd == None
    {
      isSelecting := false;
      selectionStart := None;
      selectionEnd := None;
    }

    /** The entities of `es` selected in turn, after clearing the selection
        unless `addToSelection` holds. */
    method SelectAll(es: seq<Entity>, addToSelection: bool)
      requires Valid()
      modifies this`selection, manager.table.Values`selected
      ensures Valid()
      ensures selection == AddAll(if addToSelection then old(selection) else [], Ids(es))
      ensures Flags() ==
        SetFlags(if addToSelection then old(Flags()) else SetFlags(old(Flags()), old(selection), false),
                 Ids(es), true)
      ensures old(SelectionSound()) ==> SelectionSound()
    {
      if !addToSelection {
        ClearSelection();
      }
      ghost var ids, s, f := Ids(es), selection, Flags();
      for j := 0 to |es|
        invariant Valid()
        invariant selection == AddAll(s, ids[..j])
        invariant Flags() == SetFlags(f, ids[..j], true)
        invariant Sound(f, s) ==> SelectionSound()
      {
        PrefixStep(s, f, ids, j, true);
        SelectEntity(es[j].id, true);
      }
      assert ids[..|es|] == ids;
    }

    /** The flags after a box selection: an entity is selected when it lies in
        the box or was selected before. */
    lemma BoxFlags(f: map<string, bool>, a: Vector2, b: Vector2)
      requires Valid() && f.Keys == manager.table.Keys
      ensures var r := SetFlags(f, Ids(manager.GetEntitiesInRect(a, b)), true);
        r.Keys == manager.table.Keys &&
        forall k :: k in r ==> r[k] == (InBox(manager.table[k].position, a, b) || f[k])
    {
      var inRect := manager.GetEntitiesInRect(a, b);
      var ids := Ids(inRect);
      forall k | k in manager.table
        ensures k in ids <==> InBox(manager.table[k].position, a, b)
      {
        if k in ids {
          var i :| 0 <= i < |ids| && ids[i] == k;
          assert inRect[i] in manager.table.Values;
          manager.StoredUnderOwnId();
        }
      }
      SetFlagsFacts(f, ids, true);
    }

    /** A click at `p`: selects the first entity hit, or toggles it off when it
        is already selected and `addToSelection` holds; a click on nothing
        clears the selection unless `addToSelection` holds.  Says whether
        something was hit. */
    method SelectAtPoint(p: Vector2, sqrt: real -> real, addToSelection: bool := false) returns (hit: bool)
      requires Valid() && IsSqrt(sqrt)
      modifies this`selection, manager.table.Values`selected
      ensures Valid()
      ensures hit <==> old(manager.GetEntityAtPoint(p, sqrt)).Some?
      ensures var h := old(manager.GetEntityAtPoint(p, sqrt));
        Clicked(h, h.Some? && old(h.value.selected), addToSelection,
                old(selection), old(Flags()), selection, Flags())
      ensures old(SelectionSound()) ==> SelectionSound()
    {
      var entity := manager.GetEntityAtPoint(p, sqrt);
      if entity.Some? {
        if entity.value.selected && addToSelection {
          DeselectEntity(entity.value.id);
        } else {
          SelectEntity(entity.value.id, addToSelection);
        }
        return true;
      } else if !addToSelection {
        ClearSelection();
      }
      return false;
    }

    // -------------------------------------------------------------------------
    // The tick.

    /** Runs every entity's `update`, then lets each human, in table order,
        push itself away from the others. */
    method Update(dt: real, sqrt: real -> real, redraw: string -> real)
      requires Valid() && IsSqrt(sqrt)
      modifies manager.table.Values
      ensures forall e :: e in manager.table.Values && e.kind == ResourceType ==>
        Ticked(e, dt, sqrt, redraw(e.id))
      ensures forall e :: e in manager.table.Values && e.kind == HumanType ==>
        e.target == Step(old(e.MotionState()), e.speed, dt, sqrt).target &&
        e.state == Step(old(e.MotionState()), e.speed, dt, sqrt).state &&
        e.bubble == BubbleStep(old(e.bubble), old(e.state), dt, redraw(e.id)) &&
        e.selected == old(e.selected) && e.amount == old(e.amount)
      ensures var humans := manager.GetByType(HumanType);
        Positions(humans) == AvoidPass(Ids(humans), old(SteppedPositions(humans, dt, sqrt)), |humans|, sqrt)
    {
      manager.Update(dt, sqrt, redraw);
      var humans := manager.GetByType(HumanType);
      HumansDistinct(humans);
      forall i | 0 <= i < |humans|
        ensures humans[i].position == old(SteppedPositions(humans, dt, sqrt))[i]
      {
        assert humans[i] in manager.table.Values && humans[i].kind == HumanType;
      }
      assert Positions(humans) == old(SteppedPositions(humans, dt, sqrt));
      AvoidAll(humans, sqrt);
    }

    /** The humans of the table are distinct objects. */
    lemma HumansDistinct(humans: seq<Entity>)
      requires Valid() && humans == manager.GetByType(HumanType)
      ensures Distinct(humans)
    {
      var all := manager.GetAllEntities();
      assert Distinct(all) by {
        forall i, j | 0 <= i < j < |all|
          ensures all[i] != all[j]
        {
          assert all[i].id == manager.order[i] && all[j].id == manager.order[j];
        }
      }
      SubseqDistinct(humans, all);
    }
  }

  /** `avoidCollision` run for each human of `hs` in turn, against all of `hs`. */
  method AvoidAll(hs: seq<Entity>, sqrt: real -> real)
    requires IsSqrt(sqrt) && Distinct(hs)
    modifies set h | h in hs
    ensures Positions(hs) == AvoidPass(Ids(hs), old(Positions(hs)), |hs|, sqrt)
    ensures forall h :: h in hs ==>
      h.selected == old(h.selected) && h.target == old(h.target) && h.state == old(h.state) &&
      h.bubble == old(h.bubble) && h.amount == old(h.amount)
  {
    ghost var ids, ps := Ids(hs), Positions(hs);
    for k := 0 to |hs|
      invariant forall i :: 0 <= i < |hs| ==> hs[i].position == AvoidPass(ids, ps, k, sqrt)[i]
      invariant forall i :: 0 <= i < |hs| ==>
        hs[i].selected == old(hs[i].selected) && hs[i].target == old(hs[i].target) &&
        hs[i].state == old(hs[i].state) && hs[i].bubble == old(hs[i].bubble) &&
        hs[i].amount == old(hs[i].amount)
    {
      AvoidTurn(hs, k, ids, ps, sqrt);
    }
    assert Positions(hs) == AvoidPass(ids, ps, |hs|, sqrt);
  }

  /** Turn `k` of the avoidance pass: `hs[k]` runs `avoidCollision` against all of `hs`. */
  method AvoidTurn(hs: seq<Entity>, k: nat, ghost ids: seq<string>, ghost ps: seq<Vector2>,
                   sqrt: real -> real)
    requires IsSqrt(sqrt) && Distinct(hs) && k < |hs|
    requires ids == Ids(hs) && |ps| == |hs|
    requires forall i :: 0 <= i < |hs| ==> hs[i].position == AvoidPass(ids, ps, k, sqrt)[i]
    modifies hs[k]
    ensures forall i :: 0 <= i < |hs| ==> hs[i].position == AvoidPass(ids, ps, k + 1, sqrt)[i]
    ensures hs[k].selected == old(hs[k].selected) && hs[k].target == old(hs[k].target)
    ensures hs[k].state == old(hs[k].state) && hs[k].bubble == old(hs[k].bubble)
    ensures hs[k].amount == old(hs[k].amount)
  {
    ghost var qs := AvoidPass(ids, ps, k, sqrt);
    assert Positions(hs) == qs;
    var h := hs[k];
    h.AvoidCollision(hs, sqrt);
    AvoidPassNext(ids, ps, k, sqrt);
    forall i | 0 <= i < |hs| && i != k
      ensures hs[i].position == qs[i]
    {
      assert hs[i] != h;
    }
  }
}
