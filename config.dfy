/** The controller's configuration constants (gesture_mouse.py, lines 21-25). */
module Config {
  /** Requested camera resolution. */
  const CAM_WIDTH: nat := 640
  const CAM_HEIGHT: nat := 480

  /** Divisor of the exponential smoothing step; larger means smoother. */
  const SMOOTHING: real := 7.0

  /** Active region (x_min, x_max, y_min, y_max) as fractions of the frame. */
  const REGION_X_MIN: real := 0.2
  const REGION_X_MAX: real := 0.8
  const REGION_Y_MIN: real := 0.2
  const REGION_Y_MAX: real := 0.8

  /** Two left clicks closer than this many seconds make a double click. */
  const DOUBLE_CLICK_INTERVAL: real := 0.4

  /** The index/middle angle, in degrees, a left click must exceed. */
  const CLICK_ANGLE_THRESHOLD: real := 33.5

  /** Amount of one voice "scroll" command. */
  const SCROLL_AMOUNT: int := 500
}
