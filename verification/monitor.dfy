/**
 * The game-over monitor: each animation frame it makes sure a preview
 * exists, then looks for a settled die whose top edge has reached the
 * game-over line, once the grace period after the last drop has passed.
 */
module Monitor {
  import opened Wrappers
  import opened Dice
  import opened World
  import opened State
  import opened Controller

  /** Milliseconds after a drop during which the game cannot end. */
  const GracePeriod: int := 1000
  /** Below this speed on both axes a die counts as settled. */
  const SettleSpeed: real := 0.1

  function Abs(x: real): (a: real)
    ensures a >= 0.0 && (a == x || a == -x)
  {
    if x < 0.0 then -x else x
  }

  /** A die that has (almost) stopped moving. */
  predicate Settled(b: Body) {
    Abs(b.vel.y) < SettleSpeed && Abs(b.vel.x) < SettleSpeed
  }

  /** Bodies the scan passes over: static ones, the current preview, and the sensor line. */
  predicate Skipped(s: Session, b: Body) {
    b.isStatic || s.current == Some(b.id) || b.kind == GameOverLineLabel
  }

  /** A body that ends the game at time `now`. */
  predicate Triggers(s: Session, b: Body, now: int) {
    && !Skipped(s, b)
    && now - s.lastDropTime > GracePeriod
    && Settled(b)
    && b.minY <= GameOverLineY
  }

  /**
   * The trigger on the body's raw fields, as the frame tests them: a
   * dynamic body that is not the preview and is not labelled
   * "gameOverLine", more than 1000 ms after the last drop, moving slower
   * than 0.1 on both axes, with its top edge at or above y = 120.
   */
  lemma TriggerCondition(s: Session, b: Body, now: int)
    ensures Triggers(s, b, now) <==>
      && !b.isStatic && s.current != Some(b.id) && LabelText(b.kind) != "gameOverLine"
      && now - s.lastDropTime > 1000
      && -0.1 < b.vel.y < 0.1 && -0.1 < b.vel.x < 0.1
      && b.minY <= 120.0
  {
    LabelTextInjective(b.kind, GameOverLineLabel);
  }

  /** Some body of the world ends the game at time `now`. */
  predicate GameOver(s: Session, now: int) {
    exists i :: 0 <= i < |s.world| && Triggers(s, s.world[i], now)
  }

  /**
   * The scan as the frame runs it: bodies in world order, skipping the
   * passive ones, stopping at the first settled die at or above the line.
   */
  method ScanForGameOver(s: Session, now: int) returns (over: bool)
    ensures over <==> GameOver(s, now)
  {
    var i := 0;
    while i < |s.world|
      invariant 0 <= i <= |s.world|
      invariant forall j :: 0 <= j < i ==> !Triggers(s, s.world[j], now)
    {
      var b := s.world[i];
      if !(b.isStatic || s.current == Some(b.id) || b.kind == GameOverLineLabel) {
        if now - s.lastDropTime > GracePeriod {
          var isSettled := Abs(b.vel.y) < SettleSpeed && Abs(b.vel.x) < SettleSpeed;
          if isSettled && b.minY <= GameOverLineY {
            return true;
          }
        }
      }
      i := i + 1;
    }
    return false;
  }

  /** One frame: the session after it, and whether the next frame is requested. */
  datatype Tick = Tick(session: Session, rescheduled: bool)

  /**
   * One frame of the loop. An inactive session is left alone and the loop
   * stops. Otherwise a missing preview is created first; then, if some body
   * triggers, the game ends and the loop stops, else the next frame is
   * requested. `r` is the draw used when a preview has to be created.
   */
  function GameLoop(s: Session, now: int, r: real): (t: Tick)
    requires 0.0 <= r < 1.0
    ensures !s.active ==> t == Tick(s, false)
    ensures t.session.active ==> s.active
    ensures t.rescheduled <==> t.session.active
    ensures t.session.score == s.score && t.session.lastDropTime == s.lastDropTime
    ensures s.active ==> t.session.current.Some?
    ensures s.current.Some? ==> t.session.(active := s.active) == s
    ensures s.active && s.current.None? ==> t.session.(active := true) == CreateNextDice(s, r)
    ensures s.active && now - s.lastDropTime <= GracePeriod ==> t.session.active
  {
    if !s.active then Tick(s, false)
    else
      var s1 := if s.current.None? then CreateNextDice(s, r) else s;
      if GameOver(s1, now) then Tick(s1.(active := false), false) else Tick(s1, true)
  }

  /**
   * The frame ends the game exactly when the session was active and some
   * body, other than the preview it holds after the frame, triggers.
   */
  lemma GameLoopEndsGame(s: Session, now: int, r: real)
    requires 0.0 <= r < 1.0
    ensures var t := GameLoop(s, now, r);
      (s.active && !t.session.active) <==>
      (s.active && exists b :: b in t.session.world && Triggers(t.session, b, now))
  {
    var t := GameLoop(s, now, r);
    if s.active {
      var s1 := if s.current.None? then CreateNextDice(s, r) else s;
      assert t.session.world == s1.world && t.session.current == s1.current;
      assert t.session.lastDropTime == s1.lastDropTime;
      if exists b :: b in t.session.world && Triggers(t.session, b, now) {
        var b :| b in t.session.world && Triggers(t.session, b, now);
        var i :| 0 <= i < |s1.world| && s1.world[i] == b;
        assert Triggers(s1, s1.world[i], now);
      }
      if GameOver(s1, now) {
        var i :| 0 <= i < |s1.world| && Triggers(s1, s1.world[i], now);
        assert s1.world[i] in t.session.world && Triggers(t.session, s1.world[i], now);
      }
    }
  }

  /** A frame keeps the session valid. */
  lemma GameLoopKeepsValid(s: Session, now: int, r: real)
    requires Valid(s) && 0.0 <= r < 1.0
    ensures Valid(GameLoop(s, now, r).session)
    ensures s.active ==> PreviewCount(GameLoop(s, now, r).session.world) == 1
  {
    if s.active {
      if s.current.None? {
        CreateNextDiceKeepsValid(s, r);
      } else {
        PreviewsCounted(s);
      }
    }
  }

  /** A valid session with a current preview holds exactly one preview. */
  lemma {:induction false} PreviewsCounted(s: Session)
    requires Valid(s) && s.current.Some?
    ensures PreviewCount(s.world) == 1
  {
    AtMostOnePreview(s);
    var k :| 0 <= k < |s.world| && s.world[k].id == s.current.value;
    PreviewCountPositive(s.world, k);
  }

  /** A list with a preview at index `k` has a positive preview count. */
  lemma {:induction false} PreviewCountPositive(w: seq<Body>, k: nat)
    requires k < |w| && IsPreview(w[k])
    ensures PreviewCount(w) >= 1
    decreases k
  {
    if k > 0 {
      assert w[1..][k - 1] == w[k];
      PreviewCountPositive(w[1..], k - 1);
    }
  }

  /**
   * Neither the preview nor the sensor line can end the game, and the delay
   * is strict: at exactly one second after a drop nothing triggers yet.
   */
  lemma PassiveBodiesNeverTrigger(s: Session, b: Body, now: int)
    ensures IsPreview(b) || b.kind == GameOverLineLabel || now - s.lastDropTime <= GracePeriod ==> !Triggers(s, b, now)
  {
  }

  /** A settled, dynamic die whose top edge is exactly on the line triggers once the delay is over. */
  lemma LineIsInclusive(s: Session, b: Body, now: int)
    requires !b.isStatic && s.current != Some(b.id) && b.kind != GameOverLineLabel
    requires b.vel == Zero && b.minY == GameOverLineY
    ensures Triggers(s, b, now) <==> now - s.lastDropTime > GracePeriod
  {
  }
}
