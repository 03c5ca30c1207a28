/** The per-frame gesture logic of the main loop as a pure transition function,
    and what it guarantees about the actions each frame may produce. */
module Gesture {
  import opened Wrappers
  import opened Actions
  import opened Config
  import opened Features
  import opened Motion

  /** The screen size reported once at start-up by `pyautogui.size()`. */
  datatype Screen = Screen(width: nat, height: nat)

  /** What one iteration of the loop sees: the frame size, the tracked hand if
      MediaPipe found one, the clock reading `time.time()` would return, and
      whether the 'q' key was pressed after the frame was shown. */
  datatype Frame = Frame(width: nat, height: nat, hand: Option<Hand>, now: real, quit: bool)

  /** Frames of at least 2 x 2 pixels; smaller ones make the region degenerate
      (RegionWellFormedIff). */
  predicate FrameOk(f: Frame) {
    f.width >= 2 && f.height >= 2
  }

  /** The five module-level variables the loop carries from frame to frame. */
  datatype GestureState = GestureState(
    prevIndexUp: bool,
    prevMiddleUp: bool,
    smoothX: real,
    smoothY: real,
    lastClickTime: real)

  /** Their values at start-up: flags down, cursor and clock at 0. */
  const Initial: GestureState := GestureState(false, false, 0.0, 0.0, 0.0)

  /** Move mode: index and middle finger both up. */
  predicate Moving(h: Hand) {
    h.indexUp && h.middleUp
  }

  /** Falling edge of the index finger while the middle finger stays up, with
      the fingers spread wider than the angle threshold. */
  predicate LeftClickEdge(s: GestureState, h: Hand) {
    s.prevIndexUp && !h.indexUp && h.middleUp && h.angle > CLICK_ANGLE_THRESHOLD
  }

  /** Falling edge of the middle finger while the index finger is up. */
  predicate RightClickEdge(s: GestureState, h: Hand) {
    h.indexUp && s.prevMiddleUp && !h.middleUp
  }

  /** A left click closer than DOUBLE_CLICK_INTERVAL to the previous one is
      sent as a double click. */
  function LeftClickAction(lastClickTime: real, now: real): Action {
    if now - lastClickTime < DOUBLE_CLICK_INTERVAL then DoubleClick else Click
  }

  /** The smoothed cursor after this frame: one smoothing step toward the mapped
      target when the tip is inside the active region, unchanged otherwise. */
  function NextCursor(screen: Screen, s: GestureState, f: Frame, h: Hand): (p: Point)
    requires FrameOk(f)
    ensures var r := RegionOf(f.width, f.height);
      (!r.Contains(h.tipX, h.tipY) ==> p == Point(s.smoothX, s.smoothY)) &&
      (r.Contains(h.tipX, h.tipY) ==>
        r.WellFormed() &&
        var t := MapToScreen(r, h.tipX, h.tipY, screen.width, screen.height);
        Between(p.x, s.smoothX, t.x) && Between(p.y, s.smoothY, t.y) &&
        Abs(p.x - t.x) == Abs(s.smoothX - t.x) * DECAY &&
        Abs(p.y - t.y) == Abs(s.smoothY - t.y) * DECAY)
  {
    var r := RegionOf(f.width, f.height);
    RegionWellFormedIff(f.width, f.height);
    if r.Contains(h.tipX, h.tipY) then
      var t := MapToScreen(r, h.tipX, h.tipY, screen.width, screen.height);
      Point(Smooth(s.smoothX, t.x), Smooth(s.smoothY, t.y))
    else
      Point(s.smoothX, s.smoothY)
  }

  /** The state after a frame and the actions the frame emits, in order. */
  datatype Outcome = Outcome(state: GestureState, actions: seq<Action>)

  /** One iteration of the loop. Without a hand nothing is emitted and nothing
      changes. With a hand: the cursor is smoothed, then either Move is emitted
      (both fingers up) or the left and right click edges are tested in turn;
      finally the current flags become the previous ones. */
  function Step(screen: Screen, s: GestureState, f: Frame): (o: Outcome)
    requires FrameOk(f)
    ensures |o.actions| <= 1
    ensures f.hand.None? ==> o == Outcome(s, [])
    ensures f.hand.Some? ==>
      o.state.prevIndexUp == f.hand.value.indexUp && o.state.prevMiddleUp == f.hand.value.middleUp
    ensures forall a :: a in o.actions ==> !a.Scroll?
    ensures (f.hand.Some? && !Moving(f.hand.value) &&
             !LeftClickEdge(s, f.hand.value) && !RightClickEdge(s, f.hand.value)) ==> o.actions == []
  {
    match f.hand
    case None => Outcome(s, [])
    case Some(h) =>
      var c := NextCursor(screen, s, f, h);
      if Moving(h) then
        Outcome(GestureState(h.indexUp, h.middleUp, c.x, c.y, s.lastClickTime), [Move(c.x, c.y)])
      else
        var left := if LeftClickEdge(s, h) then [LeftClickAction(s.lastClickTime, f.now)] else [];
        var right := if RightClickEdge(s, h) then [RightClick] else [];
        var clock := if LeftClickEdge(s, h) then f.now else s.lastClickTime;
        Outcome(GestureState(h.indexUp, h.middleUp, c.x, c.y, clock), left + right)
  }

  // ---------------------------------------------------------------------------
  // One frame

  /** Move is emitted exactly on frames where both fingers are up, at the new
      smoothed position, and then it is the only action. */
  lemma MoveIffBothFingersUp(screen: Screen, s: GestureState, f: Frame)
    requires FrameOk(f) && f.hand.Some?
    ensures var o := Step(screen, s, f);
      (Moving(f.hand.value) ==> o.actions == [Move(o.state.smoothX, o.state.smoothY)]) &&
      (!Moving(f.hand.value) ==> forall a :: a in o.actions ==> !a.Move?)
  {
  }

  /** A left click (single or double) is emitted exactly on a qualifying falling
      edge of the index finger; it is a double click exactly when the previous
      left click is less than DOUBLE_CLICK_INTERVAL old; and the click clock is
      reset to `now` on that path and on no other. */
  lemma LeftClickLaw(screen: Screen, s: GestureState, f: Frame)
    requires FrameOk(f) && f.hand.Some?
    ensures var o := Step(screen, s, f); var h := f.hand.value;
      ((Click in o.actions || DoubleClick in o.actions) <==> LeftClickEdge(s, h)) &&
      (DoubleClick in o.actions <==> LeftClickEdge(s, h) && f.now - s.lastClickTime < DOUBLE_CLICK_INTERVAL) &&
      o.state.lastClickTime == (if LeftClickEdge(s, h) then f.now else s.lastClickTime)
  {
  }

  /** A right click is emitted exactly on a falling edge of the middle finger
      while the index finger is up. */
  lemma RightClickLaw(screen: Screen, s: GestureState, f: Frame)
    requires FrameOk(f) && f.hand.Some?
    ensures RightClick in Step(screen, s, f).actions <==> RightClickEdge(s, f.hand.value)
  {
  }

  /** The smoothed cursor moves only when the tip is inside the active region,
      and then each coordinate lands between its old value and the target, 1/7
      of the way there. */
  lemma CursorLaw(screen: Screen, s: GestureState, f: Frame)
    requires FrameOk(f) && f.hand.Some?
    ensures var o := Step(screen, s, f); var h := f.hand.value;
      var r := RegionOf(f.width, f.height);
      (!r.Contains(h.tipX, h.tipY) ==> o.state.smoothX == s.smoothX && o.state.smoothY == s.smoothY) &&
      (r.Contains(h.tipX, h.tipY) ==>
        r.WellFormed() &&
        var t := MapToScreen(r, h.tipX, h.tipY, screen.width, screen.height);
        Between(o.state.smoothX, s.smoothX, t.x) && Between(o.state.smoothY, s.smoothY, t.y) &&
        Abs(o.state.smoothX - t.x) == Abs(s.smoothX - t.x) * DECAY &&
        Abs(o.state.smoothY - t.y) == Abs(s.smoothY - t.y) * DECAY)
  {
    var c := NextCursor(screen, s, f, f.hand.value);
    assert Step(screen, s, f).state.smoothX == c.x && Step(screen, s, f).state.smoothY == c.y;
  }

  /** v lies on the closed segment between a and b. */
  predicate Between(v: real, a: real, b: real) {
    (a <= v <= b) || (b <= v <= a)
  }

  /** The flags start down, so the very first frame cannot click. */
  lemma NoClickOnFirstFrame(screen: Screen, f: Frame)
    requires FrameOk(f)
    ensures forall a :: a in Step(screen, Initial, f).actions ==> !IsClickClass(a)
  {
  }

  /** A left click needs the index finger up on the previous frame, so two left
      clicks are never on consecutive frames. */
  lemma NoLeftClickOnConsecutiveFrames(screen: Screen, s: GestureState, f1: Frame, f2: Frame)
    requires FrameOk(f1) && FrameOk(f2) && f1.hand.Some? && f2.hand.Some?
    requires LeftClickEdge(s, f1.hand.value)
    ensures !LeftClickEdge(Step(screen, s, f1).state, f2.hand.value)
  {
  }

  /** A frame without a hand is invisible to the edge detector: the next frame
      behaves as if the dropout had not happened. */
  lemma DropoutHoldsState(screen: Screen, s: GestureState, dropout: Frame, f: Frame)
    requires FrameOk(dropout) && FrameOk(f) && dropout.hand.None?
    ensures Step(screen, Step(screen, s, dropout).state, f) == Step(screen, s, f)
  {
  }

  /** A hand whose index or middle fingertip lies on the wrist gets the angle
      0.0, which fails the spread gate: such a frame never left-clicks. */
  lemma DegenerateHandNeverLeftClicks(screen: Screen, s: GestureState, f: Frame, lm: seq<Landmark>,
                                      hypot: (real, real) -> real, acosDegrees: real -> real)
    requires FrameOk(f) && MIDDLE_TIP < |lm| && LengthLike(hypot)
    requires f.hand == Some(Extract(lm, f.width, f.height, hypot, acosDegrees))
    requires TipAtBase(lm, INDEX_TIP, WRIST) || TipAtBase(lm, MIDDLE_TIP, WRIST)
    ensures Click !in Step(screen, s, f).actions && DoubleClick !in Step(screen, s, f).actions
  {
  }

  /** The smoothed cursor stays on the screen: smoothing only moves it toward
      targets that are on the screen. */
  predicate OnScreen(screen: Screen, s: GestureState) {
    0.0 <= s.smoothX <= screen.width as real && 0.0 <= s.smoothY <= screen.height as real
  }

  lemma StepKeepsCursorOnScreen(screen: Screen, s: GestureState, f: Frame)
    requires FrameOk(f) && OnScreen(screen, s)
    ensures OnScreen(screen, Step(screen, s, f).state)
  {
  }

  // ---------------------------------------------------------------------------
  // Runs of frames

  predicate AllOk(frames: seq<Frame>) {
    forall i :: 0 <= i < |frames| ==> FrameOk(frames[i])
  }

  /** The state at loop exit and the actions of each processed frame. */
  datatype Trace = Trace(state: GestureState, ticks: seq<seq<Action>>)

  /** The loop over a stream of frames: every frame is processed until the
      stream ends or the frame on which 'q' was pressed has been processed. */
  function Run(screen: Screen, s: GestureState, frames: seq<Frame>): (t: Trace)
    requires AllOk(frames)
    ensures |t.ticks| <= |frames|
    ensures forall i :: 0 <= i < |t.ticks| ==> |t.ticks[i]| <= 1
    ensures forall i :: 0 <= i < |t.ticks| - 1 ==> !frames[i].quit
    ensures |t.ticks| == |frames| || (0 < |t.ticks| && frames[|t.ticks| - 1].quit)
    decreases |frames|
  {
    if frames == [] then Trace(s, [])
    else
      var o := Step(screen, s, frames[0]);
      if frames[0].quit then Trace(o.state, [o.actions])
      else
        var rest := Run(screen, o.state, frames[1..]);
        Trace(rest.state, [o.actions] + rest.ticks)
  }

  /** One step of the run: the first frame is processed, then the rest of
      the stream unless that frame had the quit key. */
  lemma RunUnfold(screen: Screen, s: GestureState, frames: seq<Frame>)
    requires AllOk(frames) && frames != []
    ensures var o := Step(screen, s, frames[0]);
      Run(screen, s, frames) ==
        if frames[0].quit then Trace(o.state, [o.actions])
        else var rest := Run(screen, o.state, frames[1..]); Trace(rest.state, [o.actions] + rest.ticks)
  {
  }

  /** Every Move of a run from an on-screen cursor, e.g. from start-up, is to a
      point on the screen. */
  lemma {:induction false} MovesStayOnScreen(screen: Screen, s: GestureState, frames: seq<Frame>)
    requires AllOk(frames) && OnScreen(screen, s)
    ensures OnScreen(screen, Run(screen, s, frames).state)
    ensures forall i, a :: 0 <= i < |Run(screen, s, frames).ticks| && a in Run(screen, s, frames).ticks[i] && a.Move? ==>
      0.0 <= a.x <= screen.width as real && 0.0 <= a.y <= screen.height as real
    decreases |frames|
  {
    if frames != [] {
      var o := Step(screen, s, frames[0]);
      StepKeepsCursorOnScreen(screen, s, frames[0]);
      if !frames[0].quit {
        MovesStayOnScreen(screen, o.state, frames[1..]);
      }
    }
  }

  /** The click clock only moves on a left click: across a run that emits no
      Click and no DoubleClick it keeps its value. */
  lemma {:induction false} ClockHeldWithoutLeftClick(screen: Screen, s: GestureState, frames: seq<Frame>)
    requires AllOk(frames)
    requires forall i :: 0 <= i < |Run(screen, s, frames).ticks| ==>
      Click !in Run(screen, s, frames).ticks[i] && DoubleClick !in Run(screen, s, frames).ticks[i]
    ensures Run(screen, s, frames).state.lastClickTime == s.lastClickTime
    decreases |frames|
  {
    if frames != [] {
      var o := Step(screen, s, frames[0]);
      var t := Run(screen, s, frames);
      assert t.ticks[0] == o.actions;
      if frames[0].hand.Some? {
        LeftClickLaw(screen, s, frames[0]);
      }
      if !frames[0].quit {
        var rest := Run(screen, o.state, frames[1..]);
        assert forall i :: 0 <= i < |rest.ticks| ==> rest.ticks[i] == t.ticks[i + 1];
        ClockHeldWithoutLeftClick(screen, o.state, frames[1..]);
      }
    }
  }

  /** Double-click law: after a left click at time t1, frames that emit no left
      click, and a qualifying index edge at time t2, the second click is a
      DoubleClick when t2 - t1 < DOUBLE_CLICK_INTERVAL and a Click otherwise. */
  lemma DoubleClickLaw(screen: Screen, s: GestureState, first: Frame, between: seq<Frame>, second: Frame)
    requires FrameOk(first) && AllOk(between) && FrameOk(second)
    requires first.hand.Some? && LeftClickEdge(s, first.hand.value)
    requires var s1 := Step(screen, s, first).state;
      forall i :: 0 <= i < |Run(screen, s1, between).ticks| ==>
        Click !in Run(screen, s1, between).ticks[i] && DoubleClick !in Run(screen, s1, between).ticks[i]
    requires second.hand.Some? &&
      LeftClickEdge(Run(screen, Step(screen, s, first).state, between).state, second.hand.value)
    ensures var s2 := Run(screen, Step(screen, s, first).state, between).state;
      var acts := Step(screen, s2, second).actions;
      (second.now - first.now < DOUBLE_CLICK_INTERVAL ==> acts == [DoubleClick]) &&
      (second.now - first.now >= DOUBLE_CLICK_INTERVAL ==> acts == [Click])
  {
    var s1 := Step(screen, s, first).state;
    ClockHeldWithoutLeftClick(screen, s1, between);
  }

  /** Holding the tip still inside the region: n frames at the same pixel
      smooth the cursor exactly n steps toward the same target, so the
      exponential decay law applies to the engine itself. */
  lemma {:induction false} HoldStillConverges(screen: Screen, s: GestureState, frames: seq<Frame>,
                                              width: nat, height: nat, tipX: int, tipY: int)
    requires width >= 2 && height >= 2
    requires RegionOf(width, height).Contains(tipX, tipY)
    requires forall i :: 0 <= i < |frames| ==>
      frames[i].width == width && frames[i].height == height && !frames[i].quit &&
      frames[i].hand.Some? && frames[i].hand.value.tipX == tipX && frames[i].hand.value.tipY == tipY
    ensures AllOk(frames)
    ensures RegionOf(width, height).WellFormed()
    ensures var t := MapToScreen(RegionOf(width, height), tipX, tipY, screen.width, screen.height);
      var e := Run(screen, s, frames).state;
      e.smoothX == SmoothSteps(s.smoothX, t.x, |frames|) &&
      e.smoothY == SmoothSteps(s.smoothY, t.y, |frames|)
    decreases |frames|
  {
    RegionWellFormedIff(width, height);
    if frames != [] {
      var o := Step(screen, s, frames[0]);
      HoldStillConverges(screen, o.state, frames[1..], width, height, tipX, tipY);
    }
  }

  /** Edge debouncing: with the middle finger up throughout and the index
      finger [up, up, down], exactly one click-class action fires, a Click
      at the third frame, given that the clock reads at least
      DOUBLE_CLICK_INTERVAL past start-up. */
  lemma ClickAtThirdFrame(screen: Screen, frames: seq<Frame>)
    requires |frames| == 3 && AllOk(frames)
    requires forall i :: 0 <= i < 3 ==>
      frames[i].hand.Some? && frames[i].hand.value.middleUp &&
      frames[i].hand.value.angle > CLICK_ANGLE_THRESHOLD && !frames[i].quit &&
      frames[i].now >= DOUBLE_CLICK_INTERVAL
    requires frames[0].hand.value.indexUp && frames[1].hand.value.indexUp && !frames[2].hand.value.indexUp
    ensures var t := Run(screen, Initial, frames);
      |t.ticks| == 3 &&
      (forall a :: a in t.ticks[0] ==> !IsClickClass(a)) &&
      (forall a :: a in t.ticks[1] ==> !IsClickClass(a)) &&
      t.ticks[2] == [Click]
  {
    var o0 := Step(screen, Initial, frames[0]);
    var o1 := Step(screen, o0.state, frames[1]);
    var o2 := Step(screen, o1.state, frames[2]);
    assert frames[1..][1..] == [frames[2]];
    assert Run(screen, o1.state, frames[1..][1..]) == Trace(o2.state, [o2.actions]);
    assert Run(screen, o0.state, frames[1..]) == Trace(o2.state, [o1.actions, o2.actions]);
  }
}
