/**
 * Bodies as the game sees them, the piece factory, and the few operations on
 * the world's body list that the rules use: removal by id, lookup by id, and
 * the fixed walls.
 */
module World {
  import opened Wrappers
  import opened Dice

  const CanvasWidth: real := 400.0
  const CanvasHeight: real := 600.0
  const WallThickness: real := 20.0
  /** The game-over line sits 20% of the container height below the top. */
  const GameOverLineY: real := CanvasHeight * 0.2

  /** A label string that is not a key of the tier table. */
  type OtherText = s: string | TierOf(s).None? witness "gameOverLine"

  /**
   * A body label. The engine keeps labels as strings; `Key(t)` is the string
   * `Name(t)` and `Other(s)` any string that is not a tier key, so labels and
   * strings correspond one to one (`LabelText` and `ParseLabel`).
   */
  datatype Label = Key(tier: Tier) | Other(text: OtherText)

  /** The string a label stands for. */
  function LabelText(l: Label): string {
    match l
    case Key(t) => Name(t)
    case Other(s) => s
  }

  /** The label a string stands for: a tier key or some other text. */
  function ParseLabel(s: string): (l: Label)
    ensures LabelText(l) == s
    ensures l.Key? <==> TierOf(s).Some?
  {
    match TierOf(s)
    case Some(t) => Key(t)
    case None => Other(s)
  }

  /** Parsing the string of a label gives the label back. */
  lemma ParseLabelText(l: Label)
    ensures ParseLabel(LabelText(l)) == l
  {
    if l.Key? {
      TierOfName(Name(l.tier), l.tier);
    }
  }

  /** Two labels are equal exactly when their strings are. */
  lemma LabelTextInjective(l1: Label, l2: Label)
    ensures l1 == l2 <==> LabelText(l1) == LabelText(l2)
  {
    ParseLabelText(l1);
    ParseLabelText(l2);
  }

  /** The label the physics engine gives a rectangle when none is set. */
  const WallLabel: Label := Other("Rectangle Body")
  const GameOverLineLabel: Label := Other("gameOverLine")

  datatype Vec = Vec(x: real, y: real)

  const Zero: Vec := Vec(0.0, 0.0)

  /**
   * A body of the simulation world: its identity, its label `kind` (a tier
   * key for dice), position, velocity, the top edge of its bounding box, and
   * whether it is static.
   */
  datatype Body = Body(id: nat, kind: Label, pos: Vec, vel: Vec, minY: real, isStatic: bool)

  /** The preview is the only static body that carries a tier label. */
  predicate IsPreview(b: Body) {
    b.isStatic && b.kind.Key?
  }

  /**
   * The piece factory: `None` for a type that is not a key of the tier table,
   * otherwise a fresh dynamic body labelled with that type, at rest at (x, y).
   */
  function CreateDice(id: nat, x: real, y: real, kind: string): (r: Option<Body>)
    ensures r.None? <==> TierOf(kind).None?
    ensures r.Some? ==> r.value.id == id && LabelText(r.value.kind) == kind && r.value.pos == Vec(x, y)
    ensures r.Some? ==> r.value.kind == Key(TierOf(kind).value)
    ensures r.Some? ==> r.value.vel == Zero && !r.value.isStatic && r.value.minY < y
  {
    match TierOf(kind)
    case None => None
    case Some(t) =>
      var p := Props(t);
      Some(Body(id, Key(t), Vec(x, y), Zero, y - (p.radius as real) * p.scaleY, false))
  }

  /** No two bodies of the list share an id. */
  predicate UniqueIds(w: seq<Body>) {
    forall i, j :: 0 <= i < j < |w| ==> w[i].id != w[j].id
  }

  /** Every id in the list is below `bound`. */
  predicate IdsBelow(w: seq<Body>, bound: nat) {
    forall i :: 0 <= i < |w| ==> w[i].id < bound
  }

  /** The set of ids of a body list. */
  function IdSet(w: seq<Body>): (ids: set<nat>)
    ensures forall b :: b in w ==> b.id in ids
    ensures forall k :: k in ids ==> exists i :: 0 <= i < |w| && w[i].id == k
  {
    if |w| == 0 then {} else {w[0].id} + IdSet(w[1..])
  }

  /** Removes every body whose id is in `ids`, keeping the others in order. */
  function RemoveIds(w: seq<Body>, ids: set<nat>): (r: seq<Body>)
    ensures forall b :: b in r <==> b in w && b.id !in ids
    ensures |r| <= |w|
  {
    if |w| == 0 then []
    else if w[0].id in ids then RemoveIds(w[1..], ids)
    else [w[0]] + RemoveIds(w[1..], ids)
  }

  /** Removal distributes over concatenation. */
  lemma {:induction false} RemoveIdsAppend(a: seq<Body>, b: seq<Body>, ids: set<nat>)
    ensures RemoveIds(a + b, ids) == RemoveIds(a, ids) + RemoveIds(b, ids)
    decreases |a|
  {
    if |a| > 0 {
      assert (a + b)[1..] == a[1..] + b;
      RemoveIdsAppend(a[1..], b, ids);
    } else {
      assert a + b == b;
    }
  }

  /** Removing in two rounds is removing the union once. */
  lemma {:induction false} RemoveIdsTwice(w: seq<Body>, xs: set<nat>, ys: set<nat>)
    ensures RemoveIds(RemoveIds(w, xs), ys) == RemoveIds(w, xs + ys)
    decreases |w|
  {
    if |w| > 0 {
      RemoveIdsTwice(w[1..], xs, ys);
      if w[0].id !in xs {
        assert RemoveIds(w, xs) == [w[0]] + RemoveIds(w[1..], xs);
        assert RemoveIds(w, xs)[1..] == RemoveIds(w[1..], xs);
      }
    }
  }

  /** Removing ids that no body carries changes nothing. */
  lemma {:induction false} RemoveIdsAbsent(w: seq<Body>, ids: set<nat>)
    requires forall i :: 0 <= i < |w| ==> w[i].id !in ids
    ensures RemoveIds(w, ids) == w
    decreases |w|
  {
    if |w| > 0 {
      RemoveIdsAbsent(w[1..], ids);
      assert w == [w[0]] + w[1..];
    }
  }

  /** A list without repeated ids stays so after dropping its head. */
  lemma {:induction false} UniqueIdsTail(w: seq<Body>)
    requires |w| > 0 && UniqueIds(w)
    ensures UniqueIds(w[1..]) && w[0].id !in IdSet(w[1..])
  {
    var rest := w[1..];
    forall i, j | 0 <= i < j < |rest| ensures rest[i].id != rest[j].id {
      assert rest[i] == w[i + 1] && rest[j] == w[j + 1];
    }
    forall i | 0 <= i < |rest| ensures rest[i].id != w[0].id {
      assert rest[i] == w[i + 1];
    }
  }

  /** Removal keeps ids unique. */
  lemma {:induction false} RemoveIdsUnique(w: seq<Body>, ids: set<nat>)
    requires UniqueIds(w)
    ensures UniqueIds(RemoveIds(w, ids))
    decreases |w|
  {
    if |w| > 0 {
      UniqueIdsTail(w);
      RemoveIdsUnique(w[1..], ids);
      var r := RemoveIds(w[1..], ids);
      forall b | b in r ensures b.id != w[0].id { }
    }
  }

  /** An id that no body carries does not affect removal. */
  lemma {:induction false} RemoveIdsExtra(w: seq<Body>, ids: set<nat>, k: nat)
    requires k !in IdSet(w)
    ensures RemoveIds(w, ids + {k}) == RemoveIds(w, ids)
    decreases |w|
  {
    if |w| > 0 {
      assert IdSet(w) == {w[0].id} + IdSet(w[1..]);
      RemoveIdsExtra(w[1..], ids, k);
    }
  }

  /**
   * With unique ids, removing a set of ids the list carries drops exactly one
   * body per id.
   */
  lemma {:induction false} RemoveIdsCount(w: seq<Body>, ids: set<nat>)
    requires UniqueIds(w)
    requires ids <= IdSet(w)
    ensures |RemoveIds(w, ids)| == |w| - |ids|
    decreases |w|
  {
    if |w| == 0 {
      assert ids == {};
    } else {
      var rest := w[1..];
      UniqueIdsTail(w);
      assert IdSet(w) == {w[0].id} + IdSet(rest);
      if w[0].id in ids {
        var others := ids - {w[0].id};
        assert others <= IdSet(rest);
        RemoveIdsCount(rest, others);
        RemoveIdsExtra(rest, others, w[0].id);
        assert others + {w[0].id} == ids;
      } else {
        RemoveIdsCount(rest, ids);
      }
    }
  }

  /** The midpoint of two positions. */
  function Midpoint(a: Vec, b: Vec): (m: Vec)
    ensures m.x - a.x == b.x - m.x && m.y - a.y == b.y - m.y
  {
    Vec((a.x + b.x) / 2.0, (a.y + b.y) / 2.0)
  }

  /**
   * The fixed bodies of a fresh world, with ids from `first`: the bottom,
   * left and right walls and the game-over sensor line.
   */
  function Walls(first: nat): (w: seq<Body>)
    ensures |w| == 4
    ensures forall i :: 0 <= i < |w| ==> w[i].isStatic && !IsPreview(w[i]) && w[i].vel == Zero
    ensures forall i :: 0 <= i < |w| ==> w[i].id == first + i
    ensures w[3].kind == GameOverLineLabel && w[3].pos.y == GameOverLineY
  {
    [ Body(first, WallLabel, Vec(CanvasWidth / 2.0, CanvasHeight + WallThickness / 2.0), Zero,
           CanvasHeight, true),
      Body(first + 1, WallLabel, Vec(-WallThickness / 2.0, CanvasHeight / 2.0), Zero,
           0.0, true),
      Body(first + 2, WallLabel, Vec(CanvasWidth + WallThickness / 2.0, CanvasHeight / 2.0), Zero,
           0.0, true),
      Body(first + 3, GameOverLineLabel, Vec(CanvasWidth / 2.0, GameOverLineY), Zero,
           GameOverLineY - 2.0, true) ]
  }
}
