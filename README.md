# Gesture-controlled virtual mouse — verified model of the control core

`gesture_mouse.py` drives the system pointer from a webcam and a microphone. Each camera frame, MediaPipe reports at most one hand. The controller then:

- decides whether the index and middle fingers are up;
- maps the index fingertip through an active region of the frame onto the screen;
- smooths that position exponentially;
- emits a Move while both fingers are up;
- emits a left or double click on a falling edge of the index finger (middle finger up, fingers spread more than 33.5°);
- emits a right click on a falling edge of the middle finger (index finger up).

A background thread classifies recognised speech into clicks, scrolls or "stop".

This project models that core in Dafny:

- `pynum.dfy` (`PyNum`): Python's `int()` on a float, which truncates toward zero.
- `config.dfy` (`Config`): the configuration constants.
- `actions.dfy` (`Actions`): the pointer actions, as values in place of the `pyautogui` calls.
- `features.dfy` (`Features`): `finger_is_up`; `calc_angle_between_fingers`, with `hypot` and `acos` passed in as parameters; and the per-frame hand features.
- `motion.dfy` (`Motion`): the active region in pixels, normalisation, mapping to the screen, and the smoothing step with its decay law.
- `gesture.dfy` (`Gesture`): one loop iteration as the pure transition `Step`, and the loop over a stream of frames as `Run`. The lemmas here state what each frame may emit.
- `engine.dfy` (`Engine`): the class `GestureMouse`. Its fields are the five loop variables. `Tick` is the loop body and `Loop` is the `while True` loop, both written imperatively and proved equal to `Step` and `Run`.
- `voice.dfy` (`Voice`): the speech command classifier. It uses Python's `in` on strings and `str.strip()` with Python's whitespace set.

The model follows the code as written. In particular:

- The smoothed cursor starts at (0, 0), not at the screen centre.
- The tracked point is the index fingertip, not the wrist.
- A frame without a hand keeps the previous finger flags; it does not reset them to "unknown".
- There is no lock between the voice thread and the frame loop.
- There is no pinch-click mode.
- The voice vocabulary is tested in the code's order:
  1. "left click", or an utterance that is exactly "click" after stripping whitespace;
  2. "double";
  3. "right";
  4. "scroll up", or both "scroll" and "up";
  5. "scroll down";
  6. "exit mouse" or "stop".

  So "double left click" is a Click, and "click" counts only as the whole utterance: "click me" is ignored.

## Model

| member | source | states |
|---|---|---|
| PyNum.Trunc | gesture_mouse.py:137-140 | `int()` of a float truncates toward zero: the result lies within 1 of x, on the zero side of it |
| Features.DegenerateIffTipAtBase | gesture_mouse.py:54-57 | one of the vectors base→a, base→b is zero exactly when fingertip a or b lies on the base landmark in x and y |
| Features.CosineInRange | gesture_mouse.py:58-63 | Cauchy-Schwarz in the plane: dot² ≤ \|a\|²·\|b\|² |
| Features.CosineNeedsNoClamp | gesture_mouse.py:58-63 | when hypot is the Euclidean length and neither vector is zero, mag_a·mag_b > 0 and dot / (mag_a·mag_b) already lies in [-1, 1], so the clamp changes nothing in exact arithmetic |
| Features.ClampCosine | gesture_mouse.py:63 | the clamped cosine lies in [-1, 1], equals the input when it is already there, and is 1 or -1 when the input overshoots |
| Features.AngleOf | gesture_mouse.py:58-65 | a zero vector gives 0.0 instead of a division by zero; otherwise mag_a·mag_b > 0 and the angle is acos of the clamped cosine; with the Euclidean hypot it is acos of the unclamped cosine, which lies in [-1, 1] |
| Features.CalcAngle | gesture_mouse.py:50-65 | a fingertip lying on the base landmark gives the angle 0.0; with the Euclidean hypot and neither fingertip on the base, the angle is acos of a cosine in [-1, 1] |
| Features.PixelWithinFrame | gesture_mouse.py:158-159 | a landmark inside the frame (fraction in [0,1]) gives a pixel in [0, extent] |
| Features.Extract | gesture_mouse.py:151-159 | the per-frame hand features: the index flag is tip 8 above PIP 6; the middle flag is tip 12 above PIP 10; the angle is 0.0 when tip 8 or tip 12 lies on the wrist; the tip pixel of an in-frame landmark lies in the frame |
| Motion.RegionOf | gesture_mouse.py:137-140 | the region's pixel bounds lie inside the frame: 0 ≤ x_min ≤ x_max ≤ w and 0 ≤ y_min ≤ y_max ≤ h |
| Motion.RegionSideNonEmpty | gesture_mouse.py:137-140 | int(0.2·n) < int(0.8·n) exactly when n ≥ 2 |
| Motion.RegionWellFormedIff | gesture_mouse.py:137-140 | the active region has positive width and height exactly when the frame is at least 2 × 2 pixels |
| Motion.RegionOfCameraResolution | gesture_mouse.py:137-140 | for the configured 640 × 480 camera the region is [128, 512] × [96, 384] |
| Motion.Normalize | gesture_mouse.py:165-166 | inside the region the normalised coordinate lies in [0, 1]; it is 0 exactly at the lower bound and 1 exactly at the upper bound |
| Motion.NormalizeMonotone | gesture_mouse.py:165-166 | normalisation preserves order |
| Motion.MapToScreen | gesture_mouse.py:163-168 | a tip inside the region maps to a target in [0, screen_w] × [0, screen_h]; the region's edges map to the screen's edges |
| Motion.FrameCentreMapsToScreenCentre | gesture_mouse.py:163-168 | with 640 × 480 and region (0.2, 0.8, 0.2, 0.8), pixel (320, 240) lies in the region and maps to (screen_w/2, screen_h/2) |
| Motion.Smooth | gesture_mouse.py:171-172 | one smoothing step lands between the old value and the target, and its distance to the target is the old distance times 6/7 |
| Motion.DecayLaw | gesture_mouse.py:171-172 | after n steps toward a fixed target the distance is the initial distance times (6/7)^n |
| Motion.SmoothStepsBetween | gesture_mouse.py:171-172 | repeated smoothing never overshoots the target |
| Gesture.NextCursor | gesture_mouse.py:163-172 | outside the inclusive region the smoothed cursor is unchanged; inside, each coordinate lands between its old value and the target, at 6/7 of the old distance |
| Gesture.Step | gesture_mouse.py:143-199 | a frame emits at most one action and never a scroll; a frame with a hand that is neither in Move mode nor on a left or right click edge emits nothing; a frame without a hand changes no variable and emits nothing; after a frame with a hand the previous flags equal its flags |
| Gesture.MoveIffBothFingersUp | gesture_mouse.py:175-176 | Move is emitted exactly when index and middle are both up; it goes to the new smoothed position and is then the only action |
| Gesture.LeftClickLaw | gesture_mouse.py:180-191 | a left-class click fires exactly on prev_index_up ∧ ¬index_up ∧ middle_up ∧ angle > 33.5; it is a DoubleClick exactly when the last click is under 0.4 s old; `last_click_time := now` on that path only |
| Gesture.RightClickLaw | gesture_mouse.py:193-194 | RightClick fires exactly on index_up ∧ prev_middle_up ∧ ¬middle_up |
| Gesture.CursorLaw | gesture_mouse.py:163-172 | the smoothed cursor changes only when the tip is inside the inclusive region; then each coordinate lands between its old value and the target, at 6/7 of the old distance |
| Gesture.NoClickOnFirstFrame | gesture_mouse.py:68-69 | with both flags initially False, no click of any kind fires on the first frame |
| Gesture.NoLeftClickOnConsecutiveFrames | gesture_mouse.py:180-198 | a left click records the index finger as down, so the next frame cannot left-click |
| Gesture.DropoutHoldsState | gesture_mouse.py:143-199 | a frame without a hand cannot create an edge: the following frame behaves as if the dropout never happened |
| Gesture.DegenerateHandNeverLeftClicks | gesture_mouse.py:155-182 | a hand whose index or middle fingertip lies on the wrist gets the angle 0.0 from `calc_angle_between_fingers`, fails the 33.5° gate and never left-clicks |
| Gesture.StepKeepsCursorOnScreen | gesture_mouse.py:163-172 | a cursor inside the screen stays inside it after any frame |
| Gesture.Run | gesture_mouse.py:126-209 | the processed frames are those up to and including the first frame with the quit key, or all of them when none has it; each processed frame emits at most one action |
| Gesture.MovesStayOnScreen | gesture_mouse.py:163-176 | from an on-screen cursor (e.g. start-up), every Move of a run is to a point on the screen |
| Gesture.ClockHeldWithoutLeftClick | gesture_mouse.py:184-191 | across frames that emit no Click/DoubleClick, last_click_time is unchanged |
| Gesture.DoubleClickLaw | gesture_mouse.py:184-191 | two qualifying index edges at t1 and t2, with no left click between them, make the second a DoubleClick if t2 - t1 < 0.4 and a Click otherwise |
| Gesture.HoldStillConverges | gesture_mouse.py:163-172 | n frames with the tip held at one in-region pixel smooth the cursor exactly n steps toward one target (so the decay law applies) |
| Gesture.ClickAtThirdFrame | gesture_mouse.py:180-191 | with middle held up and index [up, up, down], exactly one click-class action fires: a Click, at the third frame |
| Engine.GestureMouse.constructor | gesture_mouse.py:67-73 | the loop variables start as False, False, 0, 0, 0 |
| Engine.GestureMouse.Tick | gesture_mouse.py:143-199 | the in-place loop body produces exactly the new state and actions of `Step`; at most one action; no hand means no change |
| Engine.GestureMouse.Loop | gesture_mouse.py:126-209 | the `while True` loop, ending at the end of the stream or after the quit key, produces exactly the trace of `Run` |
| Voice.LeadingSpaces | gesture_mouse.py:95 | the number of leading whitespace characters, stopping at the first non-whitespace one |
| Voice.TrailingSpaces | gesture_mouse.py:95 | the number of trailing whitespace characters, stopping at the last non-whitespace one |
| Voice.Strip | gesture_mouse.py:95 | `cmd.strip()` is the slice of cmd after its leading whitespace; its ends are not whitespace, and only whitespace is cut on either side |
| Voice.StrippedClickExcludes | gesture_mouse.py:95 | an utterance that strips to "click" contains no word starting with a letter outside "click" |
| Voice.Classify | gesture_mouse.py:95-107 | voice only clicks, double-clicks, right-clicks, scrolls by ±500 or exits; it never moves the cursor |
| Voice.ClassifyMatchesReduced | gesture_mouse.py:95-107 | the redundant phrase tests ("double click" beside "double", and so on) never change the outcome |
| Voice.ClickLaw | gesture_mouse.py:95-96 | Click exactly when the utterance contains "left click" or strips to exactly "click" |
| Voice.DoubleLaw | gesture_mouse.py:95-98 | DoubleClick exactly when "double" occurs and "left click" does not (a bare "click" never contains "double") |
| Voice.RightLaw | gesture_mouse.py:95-100 | RightClick exactly when "right" occurs and neither the Click test nor "double" matched |
| Voice.ScrollLaw | gesture_mouse.py:95-104 | Scroll(+500) exactly when "scroll" and "up" occur and none of "left click", "double", "right" does; Scroll(-500) exactly when "scroll down" occurs, the scroll-up test fails and none of those three occurs; so Scroll(-500) never comes from an utterance containing "up" |
| Voice.ExitLaw | gesture_mouse.py:105-107 | Exit exactly when "exit mouse" or "stop" occurs and no earlier branch matched: no "left click", no bare "click", no "double", no "right", not both "scroll" and "up", no "scroll down" |
| Voice.IgnoreLaw | gesture_mouse.py:95-107 | an utterance is ignored exactly when none of the branch conditions holds |
| Voice.DoubleLeftClickIsClick | gesture_mouse.py:95-98 | the first match wins: "double left click" is a Click |
| Voice.BareClick | gesture_mouse.py:95 | " click\n" strips to "click" and is a Click |
| Voice.ClickWithMoreWordsIgnored | gesture_mouse.py:95-107 | "click me" matches no branch and is ignored |
| Voice.StopScrollingUpScrolls | gesture_mouse.py:101-107 | "stop scrolling up" scrolls up instead of exiting, because scrolling is tested first |

## Left out

- Camera capture, mirroring, colour conversion, landmark and text drawing, `imshow`/`waitKey` and resource release: these are I/O and UI. The quit key reaches the model as a per-frame flag.
- MediaPipe hand detection is an opaque foreign model. A frame carries either no hand or the hand's extracted features.
- `pyautogui` calls are OS side effects. They become `Action` values, and pyautogui's own rounding of coordinates is not modelled.
- The microphone, `recognize_google`, the listener thread, its exception handling and the 0.5 s retry sleep are concurrency and network I/O. Only the classification of one lower-cased utterance is modelled; `Exit` stands for the loop's `break`.
- The `.lower()` call is left out: the classifier receives the already lower-cased utterance.
- The voice thread and the frame loop both call `pyautogui` without a lock. A voice click does not touch `last_click_time`. Interleavings between the two threads are not modelled.
- `math.hypot` and `math.degrees(math.acos(.))` are transcendental floating-point maths. They are parameters of `Features.CalcAngle`. The degenerate-angle results assume only that hypot is non-negative and zero exactly at the origin; the clamp result assumes hypot(x, y)² = x² + y². The range of acos is not modelled.
- The angle lemmas use exact arithmetic. In floats, `mag_a * mag_b == 0` can also hold when the product underflows for tiny non-zero vectors; that case is not modelled.
- `time.time()` becomes the `now` field of each frame.
- Python floats are modelled as exact reals, so the smoothing and normalisation have no rounding.
- Gesture.Step, Engine.GestureMouse.Tick and Engine.GestureMouse.Loop require frames of at least 2 × 2 pixels. On a smaller frame the region is degenerate, and a tip on it makes the source raise ZeroDivisionError, which ends the program. That crash path is not modelled.
- The unused `prev_time_left_click` and `CLICK_DISTANCE_THRESHOLD` are left out: no pinch logic exists in this file.
