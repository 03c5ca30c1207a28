/** The main loop's state as an object: the five variables it reassigns on
    every frame, a per-frame Tick, and the loop itself. */
module Engine {
  import opened Actions
  import opened Config
  import opened Motion
  import opened Gesture

  class GestureMouse {
    const screen: Screen
    var prevIndexUp: bool
    var prevMiddleUp: bool
    var smoothX: real
    var smoothY: real
    var lastClickTime: real

    /** The abstract value of the object: its five loop variables. */
    function State(): GestureState
      reads this
    {
      GestureState(prevIndexUp, prevMiddleUp, smoothX, smoothY, lastClickTime)
    }

    /** Start-up: both flags down, cursor and click clock at 0. */
    constructor (screen: Screen)
      ensures this.screen == screen && State() == Initial
    {
      this.screen := screen;
      prevIndexUp, prevMiddleUp := false, false;
      smoothX, smoothY := 0.0, 0.0;
      lastClickTime := 0.0;
    }

    /** One pass of the loop body over a frame, returning the pointer actions
        it performs, in order. */
    method Tick(f: Frame) returns (actions: seq<Action>)
      requires FrameOk(f)
      modifies this
      ensures Outcome(State(), actions) == Step(screen, old(State()), f)
      ensures |actions| <= 1
      ensures f.hand.None? ==> actions == [] && State() == old(State())
    {
      actions := [];
      var r := RegionOf(f.width, f.height);
      RegionWellFormedIff(f.width, f.height);
      match f.hand {
        case None =>
        case Some(h) =>
          if r.Contains(h.tipX, h.tipY) {
            var target := MapToScreen(r, h.tipX, h.tipY, screen.width, screen.height);
            smoothX := smoothX + (target.x - smoothX) / SMOOTHING;
            smoothY := smoothY + (target.y - smoothY) / SMOOTHING;
          }
          if h.indexUp && h.middleUp {
            actions := [Move(smoothX, smoothY)];
          } else {
            if prevIndexUp && !h.indexUp && h.middleUp {
              if h.angle > CLICK_ANGLE_THRESHOLD {
                if f.now - lastClickTime < DOUBLE_CLICK_INTERVAL {
                  actions := actions + [DoubleClick];
                } else {
                  actions := actions + [Click];
                }
                lastClickTime := f.now;
              }
            }
            if h.indexUp && prevMiddleUp && !h.middleUp {
              actions := actions + [RightClick];
            }
          }
          prevIndexUp := h.indexUp;
          prevMiddleUp := h.middleUp;
      }
    }

    /** The `while True` loop: tick on each frame until the stream ends or the
        frame on which 'q' was pressed has been processed. Returns the actions
        of each processed frame. */
    method Loop(frames: seq<Frame>) returns (ticks: seq<seq<Action>>)
      requires AllOk(frames)
      modifies this
      ensures Trace(State(), ticks) == Run(screen, old(State()), frames)
    {
      ticks := [];
      var i := 0;
      while i < |frames|
        invariant 0 <= i <= |frames|
        invariant Run(screen, old(State()), frames)
               == var rest := Run(screen, State(), frames[i..]); Trace(rest.state, ticks + rest.ticks)
        decreases |frames| - i
      {
        RunUnfold(screen, State(), frames[i..]);
        assert frames[i..][1..] == frames[i + 1..];
        var actions := Tick(frames[i]);
        ticks := ticks + [actions];
        if frames[i].quit {
          return;
        }
        i := i + 1;
      }
    }
  }
}
