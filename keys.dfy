// Key codes the widgets react to. The values are those of the curses library the terminal
// backend wraps; only their distinctness and the fact that the special keys lie above 255
// matter to the model.

module Keys {
  import opened Geometry

  const KeyDown: int := 258
  const KeyUp: int := 259
  const KeyLeft: int := 260
  const KeyRight: int := 261
  const KeyBackspace: int := 263
  /** KEY_DC, the delete key. */
  const KeyDelete: int := 330
  /** What the input read returns when its timeout expires. */
  const Err: int := -1
  const Tab: int := 9
  const Escape: int := 27

  predicate IsArrow(key: int) {
    key == KeyUp || key == KeyDown || key == KeyLeft || key == KeyRight
  }

  /** The offset by which CWindow::handleEvent moves a window for each arrow key. */
  function ArrowDelta(key: int): (d: Option<Point>)
    ensures d.Some? <==> IsArrow(key)
    ensures d.Some? ==> (d.value.x == 0) != (d.value.y == 0)
    ensures d.Some? ==> -1 <= d.value.x <= 1 && -1 <= d.value.y <= 1
  {
    if key == KeyUp then Some(Point(0, -1))
    else if key == KeyDown then Some(Point(0, 1))
    else if key == KeyRight then Some(Point(1, 0))
    else if key == KeyLeft then Some(Point(-1, 0))
    else None
  }
}
