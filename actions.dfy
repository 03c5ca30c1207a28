/** The pointer actions the controller asks the operating system to perform
    (the pyautogui calls of gesture_mouse.py, as values). */
module Actions {
  datatype Action =
    | Move(x: real, y: real)   // pyautogui.moveTo(x, y, duration=0)
    | Click                    // pyautogui.click()
    | DoubleClick              // pyautogui.doubleClick()
    | RightClick               // pyautogui.click(button='right')
    | Scroll(amount: int)      // pyautogui.scroll(amount)

  /** The discrete, click-class actions (everything but cursor motion and scrolling). */
  predicate IsClickClass(a: Action) {
    a.Click? || a.DoubleClick? || a.RightClick?
  }
}
