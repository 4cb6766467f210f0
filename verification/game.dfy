/**
 * The session driven by a sequence of events: pointer moves, clicks,
 * contact batches from the engine, animation frames and reset presses.
 * Time and random draws travel inside the events.
 */
module Game {
  import opened Wrappers
  import opened Dice
  import opened World
  import opened State
  import opened Merge
  import opened Controller
  import opened Monitor
  import opened Lifecycle

  datatype Event =
    | MouseMoved(x: real)
    | Clicked(onCanvas: bool, now: int, r: real)
    | Collided(pairs: seq<Pair>)
    | Frame(now: int, r: real)
    | ResetPressed(r1: real, r2: real, now: int)

  /**
   * Events that can occur in session `s`: draws lie in [0, 1), and a contact
   * batch only involves bodies of the world other than the preview.
   */
  predicate Feasible(s: Session, e: Event) {
    match e
    case MouseMoved(_) => true
    case Clicked(_, _, r) => 0.0 <= r < 1.0
    case Collided(pairs) => WellFormedBatch(s, pairs)
    case Frame(_, r) => 0.0 <= r < 1.0
    case ResetPressed(r1, r2, _) => 0.0 <= r1 < 1.0 && 0.0 <= r2 < 1.0
  }

  /**
   * One event. A contact batch that throws stops there, keeping the merges
   * it has already done.
   */
  function Step(s: Session, e: Event): (t: Session)
    requires Valid(s) && Feasible(s, e)
    ensures e.ResetPressed? ==> t.active && t.score == 0
    ensures !e.ResetPressed? ==> t.score >= s.score && (t.active ==> s.active)
  {
    match e
    case MouseMoved(x) => MouseMove(s, x)
    case Clicked(onCanvas, now, r) => Click(s, onCanvas, now, r)
    case Collided(pairs) => HandleCollision(s, pairs).session
    case Frame(now, r) => GameLoop(s, now, r).session
    case ResetPressed(r1, r2, now) => ResetGame(s, r1, r2, now).session
  }

  /** Every event keeps the session valid. */
  lemma StepKeepsValid(s: Session, e: Event)
    requires Valid(s) && Feasible(s, e)
    ensures Valid(Step(s, e))
  {
    match e
    case MouseMoved(x) => MouseMoveKeepsValid(s, x);
    case Clicked(onCanvas, now, r) => ClickKeepsValid(s, onCanvas, now, r);
    case Collided(pairs) => HandleCollisionKeepsValid(s, pairs);
    case Frame(now, r) => GameLoopKeepsValid(s, now, r);
    case ResetPressed(r1, r2, now) => ResetLeavesOnePreview(s, r1, r2, now);
  }

  /**
   * A run of events from `s`; `None` as soon as an event could not occur
   * in the session reached so far.
   */
  function Run(s: Session, es: seq<Event>): (r: Option<Session>)
    requires Valid(s)
    ensures r.Some? ==> Valid(r.value) && PreviewCount(r.value.world) <= 1
    decreases |es|
  {
    if |es| == 0 then AtMostOnePreview(s); Some(s)
    else if !Feasible(s, es[0]) then None
    else
      StepKeepsValid(s, es[0]);
      Run(Step(s, es[0]), es[1..])
  }

  /** The events of a run contain no reset press. */
  predicate NoReset(es: seq<Event>) {
    forall i :: 0 <= i < |es| ==> !es[i].ResetPressed?
  }

  /** Without a reset the score never goes down. */
  lemma {:induction false} ScoreNeverDecreases(s: Session, es: seq<Event>)
    requires Valid(s) && NoReset(es) && Run(s, es).Some?
    ensures Run(s, es).value.score >= s.score
    decreases |es|
  {
    if |es| > 0 {
      StepKeepsValid(s, es[0]);
      assert NoReset(es[1..]) by {
        forall i | 0 <= i < |es[1..]| ensures es[1..][i] == es[i + 1] { }
      }
      ScoreNeverDecreases(Step(s, es[0]), es[1..]);
    }
  }

  /**
   * Game over is final until a reset: without a reset press an inactive
   * session stays inactive, whatever else happens.
   */
  lemma {:induction false} GameOverIsFinal(s: Session, es: seq<Event>)
    requires Valid(s) && !s.active && NoReset(es) && Run(s, es).Some?
    ensures !Run(s, es).value.active
    decreases |es|
  {
    if |es| > 0 {
      StepKeepsValid(s, es[0]);
      assert NoReset(es[1..]) by {
        forall i | 0 <= i < |es[1..]| ensures es[1..][i] == es[i + 1] { }
      }
      GameOverIsFinal(Step(s, es[0]), es[1..]);
    }
  }

  /** A reset anywhere in a run is what brings a finished game back. */
  lemma {:induction false} RevivalNeedsReset(s: Session, es: seq<Event>)
    requires Valid(s) && !s.active && Run(s, es).Some? && Run(s, es).value.active
    ensures exists i :: 0 <= i < |es| && es[i].ResetPressed?
  {
    if NoReset(es) {
      GameOverIsFinal(s, es);
    }
  }

  /** Once the game is over, pointer moves, clicks and frames change nothing. */
  lemma InactiveIgnoresInput(s: Session, e: Event)
    requires Valid(s) && Feasible(s, e) && !s.active
    requires e.MouseMoved? || e.Clicked? || e.Frame?
    ensures Step(s, e) == s
  {
  }
}
