/** The rules the game screen applies on top of the world: the token budget
    that pays for move orders, the right-click move order itself, the
    cursor-anchored wheel zoom, drag panning, the select tool's mouse-down and
    the reset. */
module Controls {
  import opened Geometry
  import opened Motion
  import opened Entities
  import opened EntityTable
  import opened World

  const InitialTokens: int := 300
  /** What moving one human costs. */
  const CostPerHuman: int := 10
  /** The relative zoom change of one wheel notch. */
  const ZoomSpeed: real := 0.05
  const MinZoom: real := 0.1
  const MaxZoom: real := 5.0

  // ---------------------------------------------------------------------------
  // Tokens.

  datatype Transaction = Transaction(description: string, cost: int)

  datatype Ledger = Ledger(available: int, spent: int, transactions: seq<Transaction>)

  const InitialLedger := Ledger(InitialTokens, 0, [])

  /** `deductTokens`: succeeds exactly when enough tokens are available, and
      then moves `cost` from available to spent and records one transaction;
      on failure nothing changes. */
  function Deduct(l: Ledger, cost: int, description: string): (r: (Ledger, bool))
    ensures r.1 <==> cost <= l.available
    ensures r.1 ==> r.0.available == l.available - cost && r.0.spent == l.spent + cost
    ensures r.1 ==> r.0.transactions == l.transactions + [Transaction(description, cost)]
    ensures !r.1 ==> r.0 == l
  {
    if l.available >= cost then
      (Ledger(l.available - cost, l.spent + cost, l.transactions + [Transaction(description, cost)]), true)
    else
      (l, false)
  }

  /** The total of the recorded costs. */
  function Recorded(ts: seq<Transaction>): int
  {
    if ts == [] then 0 else Recorded(ts[..|ts| - 1]) + ts[|ts| - 1].cost
  }

  /** Tokens are neither created nor destroyed, and what was spent is what the
      transactions record. */
  ghost predicate Balanced(l: Ledger)
  {
    l.available + l.spent == InitialTokens && l.spent == Recorded(l.transactions)
  }

  lemma InitialBalanced()
    ensures Balanced(InitialLedger)
  {
  }

  /** Every deduction, successful or not, keeps the ledger balanced. */
  lemma DeductKeepsBalanced(l: Ledger, cost: int, description: string)
    requires Balanced(l)
    ensures Balanced(Deduct(l, cost, description).0)
  {
    var ts := l.transactions + [Transaction(description, cost)];
    assert ts[..|ts| - 1] == l.transactions;
  }

  /** A deduction with a non-negative cost never overdraws the budget nor raises it. */
  lemma DeductNeverOverdraws(l: Ledger, cost: int, description: string)
    requires 0 <= l.available && 0 <= cost
    ensures 0 <= Deduct(l, cost, description).0.available <= l.available
  {
  }

  /** The token state of the screen. */
  class TokenLedger {
    var available: int
    var spent: int
    var transactions: seq<Transaction>

    function State(): Ledger
      reads this
    {
      Ledger(available, spent, transactions)
    }

    constructor()
      ensures State() == InitialLedger
    {
      available := InitialTokens;
      spent := 0;
      transactions := [];
    }

    method DeductTokens(cost: int, description: string) returns (ok: bool)
      modifies this
      ensures (State(), ok) == Deduct(old(State()), cost, description)
    {
      if available >= cost {
        available := available - cost;
        spent := spent + cost;
        transactions := transactions + [Transaction(description, cost)];
        return true;
      }
      return false;
    }

    method Reset()
      modifies this
      ensures State() == InitialLedger
    {
      available := InitialTokens;
      spent := 0;
      transactions := [];
    }
  }

  // ---------------------------------------------------------------------------
  // The move order.

  function DigitChar(d: nat): char
    requires d < 10
  {
    "0123456789"[d]
  }

  /** The decimal numeral of `n`, as a template literal prints it. */
  function NatToString(n: nat): (s: string)
    ensures s != []
    ensures forall i :: 0 <= i < |s| ==> '0' <= s[i] <= '9'
  {
    if n < 10 then [DigitChar(n)] else NatToString(n / 10) + [DigitChar(n % 10)]
  }

  /** The value of a string of decimal digits. */
  function ParseNat(s: string): nat
    requires forall i :: 0 <= i < |s| ==> '0' <= s[i] <= '9'
  {
    if s == [] then 0 else 10 * ParseNat(s[..|s| - 1]) + (s[|s| - 1] - '0') as nat
  }

  /** The numeral reads back as the number. */
  lemma {:induction false} NatToStringRoundTrip(n: nat)
    ensures ParseNat(NatToString(n)) == n
  {
    if n >= 10 {
      NatToStringRoundTrip(n / 10);
      var s := NatToString(n);
      assert s[..|s| - 1] == NatToString(n / 10);
    }
  }

  /** `xs` joined with `sep` between neighbours. */
  function Join(xs: seq<string>, sep: string): (r: string)
    ensures xs == [] ==> r == []
    ensures |xs| == 1 ==> r == xs[0]
  {
    if xs == [] then [] else if |xs| == 1 then xs[0] else xs[0] + sep + Join(xs[1..], sep)
  }

  /** Appending an id to a non-empty list appends the separator and the id. */
  lemma {:induction false} JoinSnoc(xs: seq<string>, x: string, sep: string)
    requires xs != []
    ensures Join(xs + [x], sep) == Join(xs, sep) + sep + x
  {
    if |xs| == 1 {
      assert xs + [x] == [xs[0], x];
    } else {
      assert (xs + [x])[1..] == xs[1..] + [x];
      JoinSnoc(xs[1..], x, sep);
    }
  }

  /** The ledger text of a move order for the humans with ids `ids`. */
  function MoveDescription(ids: seq<string>): string
  {
    "Move " + NatToString(|ids|) + " human" + (if |ids| > 1 then "s" else "") +
    " (" + Join(ids, ", ") + ")"
  }

  /** The selected humans a right-click orders about. */
  function SelectedHumans(world: GameWorld): (r: seq<Entity>)
    reads world, world.manager
    requires world.Valid()
    ensures forall e :: e in r ==> e in world.manager.table.Values && e.id in world.selection && e.kind == HumanType
    ensures forall k :: k in world.selection && k in world.manager.table && world.manager.table[k].kind == HumanType ==>
      world.manager.table[k] in r
  {
    OfType(world.GetSelectedEntities(), HumanType)
  }

  /** A right-click at `worldPos`: when some humans are selected, it charges
      `CostPerHuman` for each and, only if the charge goes through, sends them
      all to `worldPos`.  Nothing is charged when no human is selected. */
  method MoveSelected(world: GameWorld, ledger: TokenLedger, worldPos: Vector2) returns (moved: bool)
    requires world.Valid()
    modifies ledger, world.manager.table.Values
    ensures var humans := SelectedHumans(world);
      moved <==> humans != [] && CostPerHuman * |humans| <= old(ledger.available)
    ensures var humans := SelectedHumans(world);
      ledger.State() ==
        if humans == [] then old(ledger.State())
        else Deduct(old(ledger.State()), CostPerHuman * |humans|, MoveDescription(Ids(humans))).0
    ensures var humans := SelectedHumans(world);
      forall e :: e in world.manager.table.Values ==>
      if moved && e in humans then
        e.target == Some(worldPos) && e.state == Moving && e.position == old(e.position) &&
        e.selected == old(e.selected) && e.bubble == old(e.bubble) && e.amount == old(e.amount)
      else unchanged(e)
  {
    var humans := SelectedHumans(world);
    moved := MoveHumans(humans, ledger, worldPos);
  }

  /** The move order for the humans `hs`. */
  method MoveHumans(hs: seq<Entity>, ledger: TokenLedger, worldPos: Vector2) returns (moved: bool)
    modifies ledger, set e | e in hs
    ensures moved <==> hs != [] && CostPerHuman * |hs| <= old(ledger.available)
    ensures ledger.State() ==
      if hs == [] then old(ledger.State())
      else Deduct(old(ledger.State()), CostPerHuman * |hs|, MoveDescription(Ids(hs))).0
    ensures forall e :: e in hs ==>
      if moved then
        e.target == Some(worldPos) && e.state == Moving && e.position == old(e.position) &&
        e.selected == old(e.selected) && e.bubble == old(e.bubble) && e.amount == old(e.amount)
      else unchanged(e)
  {
    moved := false;
    if |hs| > 0 {
      var ok := ledger.DeductTokens(CostPerHuman * |hs|, MoveDescription(Ids(hs)));
      if ok {
        SendAll(hs, worldPos);
        moved := true;
      }
    }
  }

  /** `setTarget(worldPos)` on each of `hs`. */
  method SendAll(hs: seq<Entity>, worldPos: Vector2)
    modifies set e | e in hs
    ensures forall e :: e in hs ==>
      e.target == Some(worldPos) && e.state == Moving && e.position == old(e.position) &&
      e.selected == old(e.selected) && e.bubble == old(e.bubble) && e.amount == old(e.amount)
  {
    for i := 0 to |hs|
      invariant forall e :: e in hs[..i] ==>
        e.target == Some(worldPos) && e.state == Moving && e.position == old(e.position) &&
        e.selected == old(e.selected) && e.bubble == old(e.bubble) && e.amount == old(e.amount)
      invariant forall e :: e in hs && e !in hs[..i] ==> unchanged(e)
    {
      hs[i].SetTarget(worldPos);
      assert hs[..i + 1] == hs[..i] + [hs[i]];
    }
    assert hs[..|hs|] == hs;
  }

  // ---------------------------------------------------------------------------
  // Viewport gestures.

  /** The zoom multiplier of one wheel notch: scrolling down zooms out, anything
      else (including a zero delta) zooms in. */
  function ZoomFactor(deltaY: real): (f: real)
    ensures deltaY > 0.0 ==> f < 1.0
    ensures deltaY <= 0.0 ==> f > 1.0
  {
    if deltaY > 0.0 then 1.0 - ZoomSpeed else 1.0 + ZoomSpeed
  }

  /** The viewport after one wheel notch at screen point `mouse`; the world
      point under the cursor stays under it. */
  function ZoomAt(v: Viewport, mouse: Vector2, deltaY: real): (r: Viewport)
    requires v.zoom != 0.0
    ensures r.zoom == Clamp(v.zoom * ZoomFactor(deltaY), MinZoom, MaxZoom)
    ensures MinZoom <= r.zoom <= MaxZoom
    ensures ScreenToWorld(r, mouse) == ScreenToWorld(v, mouse)
  {
    var before := ScreenToWorld(v, mouse);
    var newZoom := Clamp(v.zoom * ZoomFactor(deltaY), MinZoom, MaxZoom);
    var after := ScreenToWorld(v.(zoom := newZoom), mouse);
    Viewport(v.x + (before.x - after.x), v.y + (before.y - after.y), newZoom)
  }

  /** The wheel handler: set the clamped zoom, then shift the origin by the
      drift of the world point under the cursor. */
  method Wheel(world: GameWorld, mouse: Vector2, deltaY: real)
    requires world.viewport.zoom != 0.0
    modifies world
    ensures world.viewport == ZoomAt(old(world.viewport), mouse, deltaY)
    ensures world.selection == old(world.selection) && world.isSelecting == old(world.isSelecting)
    ensures world.selectionStart == old(world.selectionStart) && world.selectionEnd == old(world.selectionEnd)
  {
    var viewport := world.GetViewport();
    var before := world.ScreenToWorld(mouse);
    var newZoom := Clamp(viewport.zoom * ZoomFactor(deltaY), MinZoom, MaxZoom);
    world.SetViewport(ViewportPatch(None, None, Some(newZoom)));
    var after := world.ScreenToWorld(mouse);
    world.SetViewport(ViewportPatch(Some(viewport.x + (before.x - after.x)),
                                    Some(viewport.y + (before.y - after.y)), None));
  }

  /** The viewport after dragging the cursor from `last` to `mouse` (screen
      points): the world point that was under `last` is now under `mouse`. */
  function Pan(v: Viewport, last: Vector2, mouse: Vector2): (r: Viewport)
    requires v.zoom != 0.0
    ensures r.zoom == v.zoom
    ensures ScreenToWorld(r, mouse) == ScreenToWorld(v, last)
  {
    Viewport(v.x + (last.x - mouse.x) / v.zoom, v.y + (last.y - mouse.y) / v.zoom, v.zoom)
  }

  method PanStep(world: GameWorld, last: Vector2, mouse: Vector2)
    requires world.viewport.zoom != 0.0
    modifies world
    ensures world.viewport == Pan(old(world.viewport), last, mouse)
    ensures world.selection == old(world.selection) && world.isSelecting == old(world.isSelecting)
    ensures world.selectionStart == old(world.selectionStart) && world.selectionEnd == old(world.selectionEnd)
  {
    var viewport := world.GetViewport();
    var deltaX := (last.x - mouse.x) / viewport.zoom;
    var deltaY := (last.y - mouse.y) / viewport.zoom;
    world.SetViewport(ViewportPatch(Some(viewport.x + deltaX), Some(viewport.y + deltaY), None));
  }

  // ---------------------------------------------------------------------------
  // The select tool and the reset.

  /** Left mouse-down with the select tool at `worldPos`: a click selection,
      and a new drag box only when nothing was hit and Ctrl/Meta is not held. */
  method SelectToolDown(world: GameWorld, worldPos: Vector2, sqrt: real -> real, ctrl: bool)
    requires world.Valid() && IsSqrt(sqrt)
    modifies world`selection, world`isSelecting, world`selectionStart, world`selectionEnd
    modifies world.manager.table.Values`selected
    ensures world.Valid()
    ensures old(world.manager.GetEntityAtPoint(worldPos, sqrt)).None? && !ctrl ==>
      world.isSelecting && world.selectionStart == Some(worldPos) && world.selectionEnd == Some(worldPos)
    ensures old(world.manager.GetEntityAtPoint(worldPos, sqrt)).Some? || ctrl ==>
      world.isSelecting == old(world.isSelecting) &&
      world.selectionStart == old(world.selectionStart) && world.selectionEnd == old(world.selectionEnd)
    ensures var h := old(world.manager.GetEntityAtPoint(worldPos, sqrt));
      Clicked(h, h.Some? && old(h.value.selected), ctrl,
              old(world.selection), old(world.Flags()), world.selection, world.Flags())
    ensures old(world.SelectionSound()) ==> world.SelectionSound()
  {
    ghost var h := world.manager.GetEntityAtPoint(worldPos, sqrt);
    ghost var wasSelected := h.Some? && h.value.selected;
    ghost var s0, f0 := world.selection, world.Flags();
    var hit := world.SelectAtPoint(worldPos, sqrt, ctrl);
    ghost var s1, f1 := world.selection, world.Flags();
    assert Clicked(h, wasSelected, ctrl, s0, f0, s1, f1);
    if !hit && !ctrl {
      world.StartSelection(worldPos);
    }
    assert world.selection == s1 && world.Flags() == f1;
  }

  /** The clearing half of the reset: remove every entity, centre the world
      origin on a `width` by `height` screen at zoom 1, clear the selection and
      restore the token budget.  The five humans and ten resources the reset
      then adds are not modelled. */
  method ResetWorld(world: GameWorld, ledger: TokenLedger, width: real, height: real)
    requires world.Valid()
    modifies world, world.manager, ledger
    ensures world.Valid() && world.SelectionSound()
    ensures world.manager.table == map[] && world.manager.order == []
    ensures world.selection == []
    ensures world.viewport == Viewport(-(width / 2.0), -(height / 2.0), 1.0)
    ensures world.isSelecting == old(world.isSelecting)
    ensures world.selectionStart == old(world.selectionStart) && world.selectionEnd == old(world.selectionEnd)
    ensures ledger.State() == InitialLedger
  {
    RemoveAllEntities(world);
    world.SetViewport(ViewportPatch(Some(-(width / 2.0)), Some(-(height / 2.0)), Some(1.0)));
    world.ClearSelection();
    ledger.Reset();
  }

  /** Removes every stored entity through the world, one id at a time.  Each
      removal first drops the id from the selection, so selected ids with no
      stored entity stay selected. */
  method RemoveAllEntities(world: GameWorld)
    requires world.Valid()
    modifies world, world.manager
    ensures world.Valid()
    ensures world.manager.table == map[] && world.manager.order == []
    ensures forall k :: k in world.selection ==> k in old(world.selection) && k !in old(world.manager.table)
    ensures forall k :: k in old(world.selection) && k !in old(world.manager.table) ==> k in world.selection
    ensures world.viewport == old(world.viewport) && world.isSelecting == old(world.isSelecting)
    ensures world.selectionStart == old(world.selectionStart) && world.selectionEnd == old(world.selectionEnd)
  {
    var all := world.GetAllEntities();
    ghost var ids := world.manager.order;
    ghost var sel0 := world.selection;
    for i := 0 to |all|
      invariant world.Valid()
      invariant forall k :: k in world.selection ==> k in sel0 && k !in ids[..i]
      invariant forall k :: k in sel0 && k !in ids ==> k in world.selection
      invariant world.viewport == old(world.viewport) && world.isSelecting == old(world.isSelecting)
      invariant world.selectionStart == old(world.selectionStart) && world.selectionEnd == old(world.selectionEnd)
      invariant world.manager.order == ids[i..]
    {
      assert all[i].id == ids[i];
      DistinctTail(ids[i..]);
      assert ids[i..][1..] == ids[i + 1..];
      var removed := world.RemoveEntity(all[i].id);
      assert forall k :: k in ids[..i + 1] ==> k in ids[..i] || k == ids[i];
    }
    assert ids[..|all|] == ids;
    world.manager.NoKeysMeansEmpty();
  }
}
