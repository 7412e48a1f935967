// The snake game's rules as functions on a value of its whole state. The class Snake
// (snake_game.dfy) updates fields and arrays in place; each of its methods is proved to
// produce the state one of these functions computes, and the game's properties are proved
// here, once, about the functions.

module SnakeRules {
  import opened Geometry
  import opened Keys

  /** The board is a fixed 43 x 18 torus, whatever the widget's size on screen. */
  const Width: int := 43
  const Height: int := 18
  /** Capacity of each of the two trail arrays. */
  const Cells: int := 774
  const StartWait: int := 1600
  const MinWait: int := 100
  const WaitStep: int := 100
  /** Where the head starts: (width / 2, height / 2). */
  const Centre: Point := Point(21, 9)

  datatype Direction = Stop | Left | Right | Up | Down

  function Opposite(d: Direction): Direction {
    match d
    case Stop => Stop
    case Left => Right
    case Right => Left
    case Up => Down
    case Down => Up
  }

  /** One cell in direction `d`; the y axis grows downwards. */
  function StepIn(p: Point, d: Direction): Point {
    match d
    case Stop => p
    case Left => Point(p.x - 1, p.y)
    case Right => Point(p.x + 1, p.y)
    case Up => Point(p.x, p.y - 1)
    case Down => Point(p.x, p.y + 1)
  }

  function ArrowDirection(key: int): (d: Direction)
    requires IsArrow(key)
    ensures d != Stop
  {
    if key == KeyLeft then Left
    else if key == KeyRight then Right
    else if key == KeyUp then Up
    else Down
  }

  /**
   * A window and the snake read the arrows alike: the offset CWindow::handleEvent moves a
   * window by is the step the snake's head takes for the same arrow.
   */
  lemma ArrowAgrees(k: int, p: Point)
    requires IsArrow(k)
    ensures Translate(Rect(p, Point(0, 0)), ArrowDelta(k).value).topLeft == StepIn(p, ArrowDirection(k))
  {
  }

  function KeyOf(d: Direction): (key: int)
    requires d != Stop
    ensures IsArrow(key) && ArrowDirection(key) == d
  {
    match d
    case Left => KeyLeft
    case Right => KeyRight
    case Up => KeyUp
    case Down => KeyDown
  }

  predicate InBoard(p: Point) {
    0 <= p.x < Width && 0 <= p.y < Height
  }

  // ---------------------------------------------------------------- throughTheWall

  /** throughTheWall: a coordinate below 0 jumps to the far edge, one at or past it to 0. */
  function Wrap(p: Point): (r: Point)
    ensures InBoard(r)
    ensures InBoard(p) ==> r == p
  {
    var y := if p.y < 0 then Height - 1 else p.y;
    var y := if y >= Height then 0 else y;
    var x := if p.x < 0 then Width - 1 else p.x;
    var x := if x >= Width then 0 else x;
    Point(x, y)
  }

  /** For a head at most one cell off the board, the wrap is the torus's modular arithmetic. */
  lemma WrapIsTorus(p: Point)
    requires -1 <= p.x <= Width && -1 <= p.y <= Height
    ensures Wrap(p) == Point(p.x % Width, p.y % Height)
  {
  }

  /** A step from any cell of the board, wrapped, lands on its torus neighbour. */
  lemma WrappedStepIsTorusStep(p: Point, d: Direction)
    requires InBoard(p)
    ensures var q := StepIn(p, d); Wrap(q) == Point(q.x % Width, q.y % Height)
  {
    WrapIsTorus(StepIn(p, d));
  }

  // ---------------------------------------------------------------- setScore

  datatype Progress = Progress(score: int, level: int, wait: int)

  /** setScore: one more point; every third point raises the level and shortens the tick. */
  function Scored(p: Progress): Progress {
    var score := p.score + 1;
    if score > 0 && score % 3 == 0 then
      Progress(score, p.level + 1, if p.wait > MinWait then p.wait - WaitStep else p.wait)
    else
      p.(score := score)
  }

  /** The tick interval the game has after `score` points. */
  function WaitFor(score: nat): (w: int)
    ensures MinWait <= w <= StartWait && w % WaitStep == 0
  {
    if StartWait - WaitStep * (score / 3) > MinWait then StartWait - WaitStep * (score / 3) else MinWait
  }

  /** Score, level and tick interval after `n` points since setRestart. */
  function Schedule(n: nat): Progress {
    Progress(n, 1 + n / 3, WaitFor(n))
  }

  function ScoredTimes(p: Progress, n: nat): Progress {
    if n == 0 then p else Scored(ScoredTimes(p, n - 1))
  }

  /** setScore adds exactly one point and changes level (+1) and wait (-100) only on a multiple of 3. */
  lemma ScoredSteps(p: Progress)
    requires p.score >= 0
    ensures Scored(p).score == p.score + 1
    ensures Scored(p).level != p.level <==> Scored(p).score % 3 == 0
    ensures Scored(p).level != p.level ==> Scored(p).level == p.level + 1
    ensures Scored(p).wait != p.wait ==> Scored(p).score % 3 == 0 && Scored(p).wait == p.wait - WaitStep
  {
  }

  /** The tick interval never goes below 100 while it stays a multiple of 100. */
  lemma ScoredKeepsWaitFloor(p: Progress)
    requires p.wait >= MinWait && p.wait % WaitStep == 0
    ensures Scored(p).wait >= MinWait && Scored(p).wait % WaitStep == 0
  {
  }

  /** One setScore moves the schedule on by one point. */
  lemma ScoredFollowsSchedule(n: nat)
    ensures Scored(Schedule(n)) == Schedule(n + 1)
  {
    var k := n / 3;
    if (n + 1) % 3 == 0 {
      assert (n + 1) / 3 == k + 1;
      assert StartWait - WaitStep * (k + 1) == StartWait - WaitStep * k - WaitStep;
    } else {
      assert (n + 1) / 3 == k;
    }
  }

  /** From setRestart's state, n calls of setScore give score n, level 1 + n/3, wait max(100, 1600 - 100 * (n/3)). */
  lemma {:induction false} ScheduleAfterRestart(n: nat)
    ensures ScoredTimes(Progress(0, 1, StartWait), n) == Schedule(n)
  {
    if n > 0 {
      ScheduleAfterRestart(n - 1);
      ScoredFollowsSchedule(n - 1);
    }
  }

  // ---------------------------------------------------------------- makeMove

  /** makeMove on one coordinate array: the head value goes to 0, entries 0..n-1 move up by one. */
  function Shifted(s: seq<int>, n: int, h: int): (r: seq<int>)
    requires 0 <= n < |s|
    ensures |r| == |s| && r[0] == h
    ensures forall i :: 1 <= i <= n ==> r[i] == s[i - 1]
    ensures forall i :: n < i < |s| ==> r[i] == s[i]
  {
    [h] + s[..n] + s[n + 1..]
  }

  // ---------------------------------------------------------------- the trail and the fruit

  /** Some index lo <= i < hi of the trail holds `p`. */
  predicate OnTrail(xs: seq<int>, ys: seq<int>, lo: int, hi: int, p: Point)
    requires 0 <= lo && hi <= |xs| && hi <= |ys|
  {
    exists i :: lo <= i < hi && xs[i] == p.x && ys[i] == p.y
  }

  /** The cell built from two consecutive values of the rand() stream, from index i. */
  function DrawnCell(rand: nat -> nat, i: nat): (p: Point)
    ensures InBoard(p)
  {
    Point(rand(i) % Width, rand(i + 1) % Height)
  }

  /** The j-th try of generateNewFruit when the stream stands at `start`. */
  function Attempt(rand: nat -> nat, start: nat, j: nat): Point {
    DrawnCell(rand, start + 2 * j)
  }

  /** Try j lands on a cell outside trail entries 0..n-1, the only ones generateNewFruit checks. */
  predicate FreeAttempt(rand: nat -> nat, start: nat, xs: seq<int>, ys: seq<int>, n: int, j: nat)
    requires 0 <= n <= |xs| && n <= |ys|
  {
    !OnTrail(xs, ys, 0, n, Attempt(rand, start, j))
  }

  /** The first free try at index j or later, given that try w is free. */
  function SearchFrom(rand: nat -> nat, start: nat, xs: seq<int>, ys: seq<int>, n: int, j: nat, w: nat): (k: nat)
    requires 0 <= n <= |xs| && n <= |ys|
    requires j <= w && FreeAttempt(rand, start, xs, ys, n, w)
    ensures j <= k <= w && FreeAttempt(rand, start, xs, ys, n, k)
    ensures forall i :: j <= i < k ==> !FreeAttempt(rand, start, xs, ys, n, i)
    decreases w - j
  {
    if FreeAttempt(rand, start, xs, ys, n, j) then j else SearchFrom(rand, start, xs, ys, n, j + 1, w)
  }

  /** The index of the try at which generateNewFruit stops. */
  ghost function FirstFree(rand: nat -> nat, start: nat, xs: seq<int>, ys: seq<int>, n: int): (k: nat)
    requires 0 <= n <= |xs| && n <= |ys|
    requires exists j: nat :: FreeAttempt(rand, start, xs, ys, n, j)
    ensures FreeAttempt(rand, start, xs, ys, n, k)
    ensures forall i :: 0 <= i < k ==> !FreeAttempt(rand, start, xs, ys, n, i)
  {
    var w: nat :| FreeAttempt(rand, start, xs, ys, n, w);
    SearchFrom(rand, start, xs, ys, n, 0, w)
  }

  /** A free try preceded only by occupied ones is the one FirstFree names. */
  lemma FirstFreeUnique(rand: nat -> nat, start: nat, xs: seq<int>, ys: seq<int>, n: int, k: nat)
    requires 0 <= n <= |xs| && n <= |ys|
    requires FreeAttempt(rand, start, xs, ys, n, k)
    requires forall i :: 0 <= i < k ==> !FreeAttempt(rand, start, xs, ys, n, i)
    ensures FirstFree(rand, start, xs, ys, n) == k
  {
  }

  /** The stream from index `start` eventually yields cell p at some try. */
  ghost predicate Recurs(rand: nat -> nat, start: nat, p: Point) {
    exists j: nat :: Attempt(rand, start, j) == p
  }

  /**
   * What the model assumes of rand(): from any point of the stream every cell of the board
   * is drawn again (a uniform generator does this with probability one).
   */
  ghost predicate Covers(rand: nat -> nat) {
    forall start: nat, p: Point | InBoard(p) :: Recurs(rand, start, p)
  }

  // ---------------------------------------------------------------- counting cells

  /** The board's cells numbered row by row. */
  function CellAt(i: int): Point {
    Point(i % Width, i / Width)
  }

  ghost function Enumerated(n: nat): set<Point> {
    set i | 0 <= i < n :: CellAt(i)
  }

  lemma {:induction false} EnumeratedSize(n: nat)
    ensures |Enumerated(n)| == n
  {
    if n > 0 {
      EnumeratedSize(n - 1);
      assert Enumerated(n) == Enumerated(n - 1) + {CellAt(n - 1)};
      forall i | 0 <= i < n - 1
        ensures CellAt(i) != CellAt(n - 1)
      {
        assert i == Width * (i / Width) + i % Width;
        assert n - 1 == Width * ((n - 1) / Width) + (n - 1) % Width;
      }
    }
  }

  ghost function TrailCells(xs: seq<int>, ys: seq<int>, lo: int, hi: int): set<Point>
    requires 0 <= lo && hi <= |xs| && hi <= |ys|
  {
    set i | lo <= i < hi :: Point(xs[i], ys[i])
  }

  lemma {:induction false} TrailCellsSize(xs: seq<int>, ys: seq<int>, lo: int, hi: int)
    requires 0 <= lo <= hi <= |xs| && hi <= |ys|
    ensures |TrailCells(xs, ys, lo, hi)| <= hi - lo
    decreases hi - lo
  {
    if lo < hi {
      TrailCellsSize(xs, ys, lo, hi - 1);
      assert TrailCells(xs, ys, lo, hi) == TrailCells(xs, ys, lo, hi - 1) + {Point(xs[hi - 1], ys[hi - 1])};
    } else {
      assert TrailCells(xs, ys, lo, hi) == {};
    }
  }

  /** Fewer than 774 trail entries cannot cover the board: some cell is free (pigeonhole). */
  lemma FreeCellExists(xs: seq<int>, ys: seq<int>, lo: int, hi: int)
    requires 0 <= lo <= hi <= |xs| && hi <= |ys|
    requires hi - lo < Cells
    ensures exists p :: InBoard(p) && !OnTrail(xs, ys, lo, hi, p)
  {
    var board := Enumerated(Cells);
    var trail := TrailCells(xs, ys, lo, hi);
    EnumeratedSize(Cells);
    TrailCellsSize(xs, ys, lo, hi);
    if board <= trail {
      SubsetNoLarger(board, trail);
      assert false;
    }
    var p :| p in board && p !in trail;
    assert InBoard(p);
    assert forall k | lo <= k < hi :: Point(xs[k], ys[k]) in trail;
  }

  lemma SubsetNoLarger<T>(a: set<T>, b: set<T>)
    requires a <= b
    ensures |a| <= |b|
  {
    assert b == a + (b - a);
  }

  /** Under Covers, generateNewFruit terminates whenever fewer than 774 entries are checked. */
  lemma CoversGivesFreeAttempt(rand: nat -> nat, start: nat, xs: seq<int>, ys: seq<int>, n: int)
    requires Covers(rand)
    requires 0 <= n <= |xs| && n <= |ys| && n < Cells
    ensures exists j: nat :: FreeAttempt(rand, start, xs, ys, n, j)
  {
    FreeCellExists(xs, ys, 0, n);
    var p :| InBoard(p) && !OnTrail(xs, ys, 0, n, p);
    assert Recurs(rand, start, p);
    var j: nat :| Attempt(rand, start, j) == p;
    assert FreeAttempt(rand, start, xs, ys, n, j);
  }
}
