/**
 * Starting and restarting a session: a fresh world holding the walls and
 * the sensor line, a first preview, and the first frame of the loop.
 */
module Lifecycle {
  import opened Wrappers
  import opened Dice
  import opened World
  import opened State
  import opened Controller
  import opened Monitor

  /**
   * Start-up. The world is emptied and the preview reference dropped; a
   * starter tier is drawn with `r1` (and later overwritten); the walls and
   * sensor line are added; a preview is created with the draw `r2`; and the
   * first frame runs at `now`. The score, the active flag and the last drop
   * time are left as they are.
   */
  function Init(s: Session, r1: real, r2: real, now: int): (t: Tick)
    requires 0.0 <= r1 < 1.0 && 0.0 <= r2 < 1.0
    ensures t.session.score == s.score && t.session.active == s.active
    ensures t.session.lastDropTime == s.lastDropTime
    ensures |t.session.world| == 5 && t.session.world[..4] == Walls(s.nextId)
    ensures t.rescheduled == s.active
  {
    var cleared := s.(world := [], current := None, nextType := RandomDiceType(r1));
    var walled := cleared.(world := Walls(s.nextId), nextId := s.nextId + 4);
    var ready := CreateNextDice(walled, r2);
    NothingTriggersAtStart(ready, now);
    GameLoop(ready, now, r2)
  }

  /**
   * Start-up leaves, from any session whatever, a valid session holding the
   * four fixed bodies and one preview of a starter type, which is the
   * current one.
   */
  lemma InitLeavesOnePreview(s: Session, r1: real, r2: real, now: int)
    requires 0.0 <= r1 < 1.0 && 0.0 <= r2 < 1.0
    ensures var t := Init(s, r1, r2, now).session;
      && Valid(t)
      && |t.world| == 5 && t.world[..4] == Walls(s.nextId)
      && IsPreview(t.world[4]) && PreviewCount(t.world) == 1
      && t.current == Some(t.world[4].id)
      && t.nextType in InitialDice
      && LabelText(t.world[4].kind) == t.nextType
      && t.world[4].pos == Vec(CanvasWidth / 2.0, PreviewY)
  {
    var cleared := s.(world := [], current := None, nextType := RandomDiceType(r1));
    var walled := cleared.(world := Walls(s.nextId), nextId := s.nextId + 4);
    assert Valid(walled) by {
      var w := Walls(s.nextId);
      forall i | 0 <= i < |w| ensures !IsPreview(w[i]) { }
    }
    CreateNextDiceKeepsValid(walled, r2);
  }

  /** With only walls, the sensor and the preview, no body can end the game. */
  lemma NothingTriggersAtStart(s: Session, now: int)
    requires |s.world| == 5 && s.world[..4] == Walls(s.world[0].id)
    requires s.world[4].isStatic
    ensures !GameOver(s, now)
  {
    forall i | 0 <= i < |s.world| ensures s.world[i].isStatic {
      if i < 4 {
        assert s.world[i] == s.world[..4][i];
      }
    }
  }

  /**
   * The reset button: the game becomes active with a score of 0 and is
   * started again. The drop time of the previous round is kept.
   */
  function ResetGame(s: Session, r1: real, r2: real, now: int): (t: Tick)
    requires 0.0 <= r1 < 1.0 && 0.0 <= r2 < 1.0
    ensures t.session.active && t.rescheduled && t.session.score == 0
    ensures t.session.lastDropTime == s.lastDropTime
  {
    Init(s.(active := true, score := 0), r1, r2, now)
  }

  /**
   * After a reset, from any session whatever, the world holds exactly the
   * four fixed bodies and one preview, the preview is the current one, and
   * the session is valid.
   */
  lemma ResetLeavesOnePreview(s: Session, r1: real, r2: real, now: int)
    requires 0.0 <= r1 < 1.0 && 0.0 <= r2 < 1.0
    ensures var t := ResetGame(s, r1, r2, now).session;
      && Valid(t)
      && |t.world| == 5 && t.world[..4] == Walls(s.nextId)
      && IsPreview(t.world[4]) && PreviewCount(t.world) == 1
      && t.current == Some(t.world[4].id)
      && t.nextType in InitialDice
      && LabelText(t.world[4].kind) == t.nextType
      && t.world[4].pos == Vec(CanvasWidth / 2.0, PreviewY)
  {
    InitLeavesOnePreview(s.(active := true, score := 0), r1, r2, now);
  }
}
