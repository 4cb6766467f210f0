/**
 * The preview-and-drop controller: the preview follows the pointer along
 * the top of the container, a click drops it as a physical die, and a new
 * preview of a random starter tier takes its place.
 */
module Controller {
  import opened Wrappers
  import opened Dice
  import opened World
  import opened State

  /** The height at which previews are held. */
  const PreviewY: real := 50.0

  /**
   * `min(max(x, r), CanvasWidth - r)`: the pointer position pushed into the
   * span where a die of radius `r` fits between the side walls.
   */
  function Clamp(x: real, r: real): (c: real)
    ensures c <= CanvasWidth - r
    ensures r <= CanvasWidth - r ==> r <= c
    ensures r <= x <= CanvasWidth - r ==> c == x
    ensures x < r <= CanvasWidth - r ==> c == r
    ensures CanvasWidth - r < x ==> c == CanvasWidth - r
  {
    var lo := if x > r then x else r;
    if lo < CanvasWidth - r then lo else CanvasWidth - r
  }

  /** Every tier fits: its radius is at most half the container width. */
  lemma TierFits(t: Tier)
    ensures Radius(t) as real <= CanvasWidth - Radius(t) as real
  {
  }

  /** The clamped position is the point of the fitting span nearest to `x`. */
  lemma ClampNearest(x: real, r: real, y: real)
    requires r <= y <= CanvasWidth - r
    ensures var c := Clamp(x, r); (if c >= x then c - x else x - c) <= (if y >= x then y - x else x - y)
  {
  }

  /** Clamping twice is clamping once. */
  lemma ClampIdempotent(x: real, r: real)
    requires r <= CanvasWidth - r
    ensures Clamp(Clamp(x, r), r) == Clamp(x, r)
  {
  }

  /**
   * Moves a body to (x, y), carrying its bounding box along: the offset of
   * the top edge from the centre is kept.
   */
  function MoveTo(b: Body, x: real, y: real): (m: Body)
    ensures m.pos == Vec(x, y) && m.minY - m.pos.y == b.minY - b.pos.y
    ensures m.(pos := b.pos, minY := b.minY) == b
  {
    b.(pos := Vec(x, y), minY := b.minY + (y - b.pos.y))
  }

  /** Replaces the body whose id is `nb.id` by `nb`, leaving the others. */
  function ReplaceBody(w: seq<Body>, nb: Body): (r: seq<Body>)
    ensures |r| == |w|
    ensures forall i :: 0 <= i < |w| ==> r[i] == (if w[i].id == nb.id then nb else w[i])
  {
    if |w| == 0 then []
    else [if w[0].id == nb.id then nb else w[0]] + ReplaceBody(w[1..], nb)
  }

  /** Where the preview goes when the pointer is at `x`. */
  function PreviewAt(b: Body, x: real): (m: Body)
    requires b.kind.Key?
    ensures var r := Radius(b.kind.tier) as real;
      && m.pos.y == PreviewY
      && m.pos.x == Clamp(x, r)
      && r <= m.pos.x <= CanvasWidth - r
      && (r <= x <= CanvasWidth - r ==> m.pos.x == x)
      && (x < r ==> m.pos.x == r)
      && (CanvasWidth - r < x ==> m.pos.x == CanvasWidth - r)
    ensures m.(pos := b.pos, minY := b.minY) == b
  {
    TierFits(b.kind.tier);
    MoveTo(b, Clamp(x, Radius(b.kind.tier) as real), PreviewY)
  }

  /**
   * The pointer moved to `x` (relative to the canvas): with a preview and an
   * active game, the preview moves to the clamped `x` at the preview height;
   * otherwise nothing happens.
   */
  function MouseMove(s: Session, x: real): (r: Session)
    requires Valid(s)
    ensures r.(world := s.world) == s
    ensures !(s.current.Some? && s.active) ==> r == s
    ensures |r.world| == |s.world|
    ensures forall i :: 0 <= i < |s.world| && s.current != Some(s.world[i].id) ==> r.world[i] == s.world[i]
    ensures s.current.Some? && s.active ==>
      forall i :: 0 <= i < |s.world| && s.current == Some(s.world[i].id) ==>
        var b, m, rad := s.world[i], r.world[i], Radius(s.world[i].kind.tier) as real;
        && m.(pos := b.pos, minY := b.minY) == b
        && m.pos.y == PreviewY
        && m.pos.x == Clamp(x, rad)
        && rad <= m.pos.x <= CanvasWidth - rad
        && (rad <= x <= CanvasWidth - rad ==> m.pos.x == x)
        && (x < rad ==> m.pos.x == rad)
        && (CanvasWidth - rad < x ==> m.pos.x == CanvasWidth - rad)
  {
    if s.current.Some? && s.active then
      s.(world := ReplaceBody(s.world, PreviewAt(CurrentBody(s), x)))
    else s
  }

  /** A mouse move keeps the session valid. */
  lemma MouseMoveKeepsValid(s: Session, x: real)
    requires Valid(s)
    ensures Valid(MouseMove(s, x))
  {
    if s.current.Some? && s.active {
      ReplacePreviewKeepsValid(s, PreviewAt(CurrentBody(s), x));
    }
  }

  /** Replacing the current preview by another preview with its id keeps the session valid. */
  lemma ReplacePreviewKeepsValid(s: Session, nb: Body)
    requires Valid(s) && s.current == Some(nb.id) && IsPreview(nb)
    ensures Valid(s.(world := ReplaceBody(s.world, nb)))
  {
    var w := ReplaceBody(s.world, nb);
    ReplaceBodyKeepsIds(s.world, nb, s.nextId);
    forall i | 0 <= i < |w| ensures IsPreview(w[i]) == IsPreview(s.world[i]) {
      assert w[i] == (if s.world[i].id == nb.id then nb else s.world[i]);
    }
    var k :| 0 <= k < |s.world| && s.world[k].id == s.current.value;
    assert w[k].id == s.current.value;
  }

  /** Replacing a body by one with the same id keeps ids unique and bounded. */
  lemma ReplaceBodyKeepsIds(w: seq<Body>, nb: Body, bound: nat)
    requires UniqueIds(w) && IdsBelow(w, bound)
    ensures forall i :: 0 <= i < |w| ==> ReplaceBody(w, nb)[i].id == w[i].id
    ensures UniqueIds(ReplaceBody(w, nb)) && IdsBelow(ReplaceBody(w, nb), bound)
  {
    var r := ReplaceBody(w, nb);
    forall i | 0 <= i < |w| ensures r[i].id == w[i].id {
      assert r[i] == (if w[i].id == nb.id then nb else w[i]);
    }
  }

  /** Moving the pointer to the same place twice is moving it once. */
  lemma MouseMoveIdempotent(s: Session, x: real)
    requires Valid(s)
    ensures Valid(MouseMove(s, x)) && MouseMove(MouseMove(s, x), x) == MouseMove(s, x)
  {
    MouseMoveKeepsValid(s, x);
    var r := MouseMove(s, x);
    if s.current.Some? && s.active {
      var b := CurrentBody(s);
      var m := PreviewAt(b, x);
      TierFits(b.kind.tier);
      ClampIdempotent(x, Radius(b.kind.tier) as real);
      assert CurrentBody(r) == m;
      assert PreviewAt(m, x) == m;
      assert ReplaceBody(r.world, m) == r.world;
    }
  }

  /**
   * Draws the next starter tier and, when the table knows it, adds it as a
   * static preview at the top centre and makes it the current preview.
   */
  function CreateNextDice(s: Session, r: real): (t: Session)
    requires 0.0 <= r < 1.0
    ensures t.nextType in InitialDice
    ensures t.(world := s.world, current := s.current, nextType := s.nextType, nextId := s.nextId) == s
    ensures |t.world| == |s.world| + 1 && t.world[..|s.world|] == s.world && t.nextId == s.nextId + 1
    ensures var p := t.world[|s.world|];
      && p.id == s.nextId && t.current == Some(p.id) && IsPreview(p)
      && LabelText(p.kind) == t.nextType
      && p.pos == Vec(CanvasWidth / 2.0, PreviewY) && p.vel == Zero
  {
    var ty := RandomDiceType(r);
    match CreateDice(s.nextId, CanvasWidth / 2.0, PreviewY, ty)
    case None => s.(nextType := ty)
    case Some(d) =>
      s.(world := s.world + [d.(isStatic := true)], current := Some(d.id), nextType := ty, nextId := s.nextId + 1)
  }

  /** Creating a preview when there is none keeps the session valid, with exactly one preview. */
  lemma CreateNextDiceKeepsValid(s: Session, r: real)
    requires Valid(s) && s.current.None? && 0.0 <= r < 1.0
    ensures Valid(CreateNextDice(s, r))
    ensures PreviewCount(CreateNextDice(s, r).world) == 1
  {
    var t := CreateNextDice(s, r);
    var p := t.world[|s.world|];
    assert t.world == s.world + [p];
    AtMostOnePreview(s);
    PreviewCountAppend(s.world, p);
  }

  /**
   * A click. It is ignored off the canvas, without a preview, or once the
   * game is over. Otherwise the preview leaves the world, a dynamic die of
   * the same label joins it at the preview's position, the drop time is
   * recorded, and a new preview is drawn.
   */
  function Click(s: Session, onCanvas: bool, now: int, r: real): (t: Session)
    requires Valid(s) && 0.0 <= r < 1.0
    ensures !(onCanvas && s.current.Some? && s.active) ==> t == s
    ensures onCanvas && s.current.Some? && s.active ==>
      && t.lastDropTime == now && t.score == s.score && t.active
      && t.current == Some(s.nextId + 1) && t.nextType in InitialDice
  {
    if !onCanvas then s
    else if s.current.Some? && s.active then CreateNextDice(Drop(s, now), r)
    else s
  }

  /**
   * The drop itself: the preview leaves the world and a dynamic die made by
   * the factory from the preview's label takes its place at the end.
   */
  function Drop(s: Session, now: int): (t: Session)
    requires Valid(s) && s.current.Some?
    ensures t.(world := s.world, current := s.current, lastDropTime := s.lastDropTime, nextId := s.nextId) == s
    ensures t.current.None? && t.lastDropTime == now && t.nextId == s.nextId + 1
    ensures |t.world| == |s.world| && t.world[..|t.world| - 1] == RemoveIds(s.world, {CurrentBody(s).id})
    ensures var d, pv := t.world[|t.world| - 1], CurrentBody(s);
      && d.id == s.nextId && !d.isStatic && d.vel == Zero
      && d.kind == pv.kind && d.pos == pv.pos
  {
    var pv := CurrentBody(s);
    assert {pv.id} <= IdSet(s.world);
    RemoveIdsCount(s.world, {pv.id});
    TierOfName(LabelText(pv.kind), pv.kind.tier);
    var d := CreateDice(s.nextId, pv.pos.x, pv.pos.y, LabelText(pv.kind)).value;
    s.(world := RemoveIds(s.world, {pv.id}) + [d], current := None,
       lastDropTime := now, nextId := s.nextId + 1)
  }

  /**
   * What a click that drops does to the world: the preview is gone, every
   * other body stays, the dropped die is a dynamic body with the preview's
   * label and position, and it is followed by the new preview. That preview
   * has the next id, is the current one, sits at the top centre and has the
   * starter type recorded as the next type. One body more in all.
   */
  lemma ClickDrops(s: Session, now: int, r: real)
    requires Valid(s) && 0.0 <= r < 1.0 && s.current.Some? && s.active
    ensures var t, pv := Click(s, true, now, r), CurrentBody(s);
      && |t.world| == |s.world| + 1
      && pv !in t.world
      && (forall b :: b in s.world && b != pv ==> b in t.world)
      && var d := t.world[|t.world| - 2];
      && d.id == s.nextId && !d.isStatic && d.kind == pv.kind && d.pos == pv.pos && d.vel == Zero
      && var p := t.world[|t.world| - 1];
      && IsPreview(p) && p.id == s.nextId + 1 && t.current == Some(p.id)
      && LabelText(p.kind) == t.nextType && t.nextType in InitialDice
      && p.pos == Vec(CanvasWidth / 2.0, PreviewY) && p.vel == Zero
  {
    var t, pv := Click(s, true, now, r), CurrentBody(s);
    var dr := Drop(s, now);
    var n := |dr.world|;
    var kept := RemoveIds(s.world, {pv.id});
    assert t.world == dr.world + [t.world[n]] by {
      assert t.world[..n] == dr.world;
    }
    assert dr.world == kept + [dr.world[n - 1]] by {
      assert dr.world[..n - 1] == kept;
    }
    assert t.world[n - 1] == dr.world[n - 1];
    forall b | b in t.world ensures b != pv {
      if b in kept {
        assert b.id != pv.id;
      } else if b == dr.world[n - 1] {
        assert !b.isStatic;
      } else {
        assert b == t.world[n];
        assert pv.id < s.nextId;
      }
    }
    forall b | b in s.world && b != pv ensures b in t.world {
      var i :| 0 <= i < |s.world| && s.world[i] == b;
      var j :| 0 <= j < |s.world| && s.world[j] == pv;
      assert b.id != pv.id;
      assert b in kept;
    }
  }

  /** A click keeps the session valid: there is still exactly one preview after a drop. */
  lemma ClickKeepsValid(s: Session, onCanvas: bool, now: int, r: real)
    requires Valid(s) && 0.0 <= r < 1.0
    ensures Valid(Click(s, onCanvas, now, r))
    ensures onCanvas && s.current.Some? && s.active ==> PreviewCount(Click(s, onCanvas, now, r).world) == 1
  {
    if onCanvas && s.current.Some? && s.active {
      DropKeepsValid(s, now);
      CreateNextDiceKeepsValid(Drop(s, now), r);
    }
  }

  /** The drop leaves a valid session without a preview. */
  lemma DropKeepsValid(s: Session, now: int)
    requires Valid(s) && s.current.Some?
    ensures Valid(Drop(s, now)) && Drop(s, now).current.None?
  {
    var pv := CurrentBody(s);
    TierOfName(LabelText(pv.kind), pv.kind.tier);
    var d := CreateDice(s.nextId, pv.pos.x, pv.pos.y, LabelText(pv.kind)).value;
    var s1 := s.(world := RemoveIds(s.world, {pv.id}), current := None, lastDropTime := now);
    RemovePreviewKeepsValid(s, now);
    AddBodyKeepsValid(s1, d);
    assert Drop(s, now) == s1.(world := s1.world + [d], nextId := s1.nextId + 1);
  }

  /** Taking the preview out of the world leaves a valid session without one. */
  lemma RemovePreviewKeepsValid(s: Session, now: int)
    requires Valid(s) && s.current.Some?
    ensures Valid(s.(world := RemoveIds(s.world, {s.current.value}), current := None, lastDropTime := now))
  {
    var k := s.current.value;
    var kept := RemoveIds(s.world, {k});
    RemoveIdsUnique(s.world, {k});
    forall i | 0 <= i < |kept| ensures kept[i] in s.world && kept[i].id != k { }
  }

  /** Adding a fresh non-preview body keeps the session valid. */
  lemma AddBodyKeepsValid(s: Session, d: Body)
    requires Valid(s) && d.id == s.nextId && !IsPreview(d)
    ensures Valid(s.(world := s.world + [d], nextId := s.nextId + 1))
  {
    var w := s.world + [d];
    forall i | 0 <= i < |s.world| ensures w[i] == s.world[i] { }
  }
}
