/**
 * The game's session state, gathered into one record, and the invariant that
 * every operation keeps: ids are unique and below the id counter, and the
 * preview the controller points at is the only preview in the world.
 */
module State {
  import opened Wrappers
  import opened Dice
  import opened World

  /**
   * The session: the world's bodies in insertion order, the id of the
   * preview the controller holds (`None` for no preview), the starter tier
   * last drawn, the score, the game-active flag, the time of the last drop in
   * milliseconds, and the next id the engine hands out.
   */
  datatype Session = Session(
    world: seq<Body>,
    current: Option<nat>,
    nextType: string,
    score: int,
    active: bool,
    lastDropTime: int,
    nextId: nat)

  /** The preview the controller points at is in the world and is a preview. */
  predicate CurrentIsPreview(s: Session) {
    s.current.Some? ==>
      && (exists i :: 0 <= i < |s.world| && s.world[i].id == s.current.value)
      && (forall i :: 0 <= i < |s.world| && s.world[i].id == s.current.value ==> IsPreview(s.world[i]))
  }

  /** Every preview in the world is the one the controller points at. */
  predicate PreviewsAreCurrent(s: Session) {
    forall i :: 0 <= i < |s.world| && IsPreview(s.world[i]) ==> s.current == Some(s.world[i].id)
  }

  predicate Valid(s: Session) {
    && UniqueIds(s.world)
    && IdsBelow(s.world, s.nextId)
    && CurrentIsPreview(s)
    && PreviewsAreCurrent(s)
  }

  /** The first body of the list with id `id`, which must be present. */
  function BodyWithId(w: seq<Body>, id: nat): (b: Body)
    requires exists i :: 0 <= i < |w| && w[i].id == id
    ensures b in w && b.id == id
  {
    if w[0].id == id then w[0]
    else
      assert exists i :: 0 <= i < |w[1..]| && w[1..][i].id == id by {
        var i :| 0 <= i < |w| && w[i].id == id;
        assert w[1..][i - 1] == w[i];
      }
      BodyWithId(w[1..], id)
  }

  /** The preview body the controller points at. */
  function CurrentBody(s: Session): (b: Body)
    requires Valid(s) && s.current.Some?
    ensures b in s.world && b.id == s.current.value && IsPreview(b)
  {
    BodyWithId(s.world, s.current.value)
  }

  /** The number of preview bodies in a list. */
  function PreviewCount(w: seq<Body>): nat {
    if |w| == 0 then 0
    else (if IsPreview(w[0]) then 1 else 0) + PreviewCount(w[1..])
  }

  /** No preview in a list: the count is zero. */
  lemma {:induction false} NoPreviewCount(w: seq<Body>)
    requires forall i :: 0 <= i < |w| ==> !IsPreview(w[i])
    ensures PreviewCount(w) == 0
    decreases |w|
  {
    if |w| > 0 {
      NoPreviewCount(w[1..]);
    }
  }

  /** If every preview carries id `k` and ids are unique, there is at most one. */
  lemma {:induction false} PreviewsWithOneId(w: seq<Body>, k: nat)
    requires UniqueIds(w)
    requires forall i :: 0 <= i < |w| && IsPreview(w[i]) ==> w[i].id == k
    ensures PreviewCount(w) <= 1
    decreases |w|
  {
    if |w| > 0 {
      UniqueIdsTail(w);
      if IsPreview(w[0]) {
        forall i | 0 <= i < |w[1..]| ensures !IsPreview(w[1..][i]) {
          assert w[1..][i] == w[i + 1];
          assert w[i + 1].id != w[0].id;
        }
        NoPreviewCount(w[1..]);
      } else {
        PreviewsWithOneId(w[1..], k);
      }
    }
  }

  /** Appending a body adds one to the count exactly when it is a preview. */
  lemma {:induction false} PreviewCountAppend(w: seq<Body>, b: Body)
    ensures PreviewCount(w + [b]) == PreviewCount(w) + (if IsPreview(b) then 1 else 0)
    decreases |w|
  {
    if |w| == 0 {
      assert w + [b] == [b];
    } else {
      assert (w + [b])[1..] == w[1..] + [b];
      PreviewCountAppend(w[1..], b);
    }
  }

  /** A valid session holds at most one preview, and none without a current one. */
  lemma {:induction false} AtMostOnePreview(s: Session)
    requires Valid(s)
    ensures PreviewCount(s.world) <= 1
    ensures s.current.None? ==> PreviewCount(s.world) == 0
  {
    if s.current.Some? {
      PreviewsWithOneId(s.world, s.current.value);
    } else {
      NoPreviewCount(s.world);
    }
  }
}
