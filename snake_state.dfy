// The whole state of one snake widget as a value, and what a key press (handleEvent) and a
// repaint (paint, where the game logic runs) do to it.

module SnakeState {
  import opened Geometry
  import opened Keys
  import opened SnakeRules

  /**
   * head is (x, y), fruit is (fruitX, fruitY); xs and ys are the two trail arrays (index 0 the
   * head, 1..score the body); drawn counts the rand() values consumed; wait is the
   * process-wide tick interval, which only the snake changes.
   */
  datatype Game = Game(
    head: Point, fruit: Point, score: int, level: int, wait: int, dir: Direction,
    tutorial: bool, gameOver: bool, pause: bool, help: bool, restart: bool, move: bool,
    xs: seq<int>, ys: seq<int>, drawn: nat, geom: Rect)

  function ProgressOf(g: Game): Progress {
    Progress(g.score, g.level, g.wait)
  }

  /** What every reachable state satisfies. */
  ghost predicate WellFormed(g: Game) {
    |g.xs| == Cells && |g.ys| == Cells &&
    0 <= g.score < Cells && ProgressOf(g) == Schedule(g.score) &&
    InBoard(g.fruit)
  }

  predicate HasHead(g: Game) {
    |g.xs| > 0 && |g.ys| > 0
  }

  /** setRestart: a fresh game, a fruit from the next two rand() values, the tick back at 1600. */
  function Restart(g: Game, rand: nat -> nat): Game
    requires HasHead(g)
  {
    g.(head := Centre, fruit := DrawnCell(rand, g.drawn), drawn := g.drawn + 2,
       score := 0, level := 1, dir := Stop,
       tutorial := false, gameOver := false, pause := false, restart := false, help := false,
       xs := g.xs[0 := Centre.x], ys := g.ys[0 := Centre.y], move := false, wait := StartWait)
  }

  lemma RestartWellFormed(g: Game, rand: nat -> nat)
    requires |g.xs| == Cells && |g.ys| == Cells
    ensures WellFormed(Restart(g, rand))
    ensures Restart(g, rand).score == 0 && ProgressOf(Restart(g, rand)) == Schedule(0)
    ensures Restart(g, rand).xs[0] == Centre.x && Restart(g, rand).ys[0] == Centre.y
  {
  }

  // ---------------------------------------------------------------- handleEvent

  datatype Reply = Reply(consumed: bool, next: Game)

  /** Set the direction, step the head one cell that way and ask the next paint to move. */
  function Turn(g: Game, d: Direction): Game {
    g.(dir := d, head := StepIn(g.head, d), move := true)
  }

  /** handleGameOver. */
  function OnGameOver(g: Game, c: int, rand: nat -> nat): Reply
    requires HasHead(g)
  {
    if c == 'r' as int then Reply(true, Restart(g, rand)) else Reply(false, g)
  }

  /** handlePause: arrows move the window (CWindow::handleEvent), 'p' resumes, 'r' restarts. */
  function OnPause(g: Game, c: int, rand: nat -> nat): Reply
    requires HasHead(g)
  {
    if IsArrow(c) then Reply(true, g.(geom := Translate(g.geom, ArrowDelta(c).value)))
    else if c == 'p' as int then Reply(true, g.(pause := false, move := false))
    else if c == 'r' as int then Reply(true, Restart(g, rand))
    else Reply(false, g)
  }

  /** handleHelp. */
  function OnHelp(g: Game, c: int, rand: nat -> nat): Reply
    requires HasHead(g)
  {
    if c == 'h' as int then Reply(true, g.(help := false, move := false))
    else if c == 'r' as int then Reply(true, Restart(g, rand))
    else Reply(false, g)
  }

  /** handleScore, used while the score is 0: arrows turn with no reversal check. */
  function OnFirstMove(g: Game, c: int, rand: nat -> nat): Reply
    requires HasHead(g)
  {
    if IsArrow(c) then Reply(true, Turn(g, ArrowDirection(c)))
    else if c == 'p' as int then Reply(true, g.(pause := true))
    else if c == 'r' as int then Reply(true, Restart(g, rand))
    else if c == 'h' as int then Reply(true, g.(help := true))
    else Reply(false, g)
  }

  /** handleOther: the mode keys once the snake has a body. */
  function OnOther(g: Game, c: int, rand: nat -> nat): Reply
    requires HasHead(g)
  {
    if c == 'p' as int then Reply(true, g.(pause := true, move := false))
    else if c == 'r' as int then Reply(true, Restart(g, rand).(move := false))
    else if c == 'h' as int then Reply(true, g.(help := true, move := false))
    else Reply(false, g)
  }

  /** handleDirections: an arrow against the current direction keeps going the current way. */
  function OnDirection(g: Game, c: int, rand: nat -> nat): Reply
    requires HasHead(g)
  {
    if IsArrow(c) then
      var d := ArrowDirection(c);
      if g.dir != Opposite(d) then Reply(true, Turn(g, d)) else Reply(true, Turn(g, g.dir))
    else OnOther(g, c, rand)
  }

  /** CSnake::handleEvent: the first mode that holds decides. */
  function OnKey(g: Game, c: int, rand: nat -> nat): Reply
    requires HasHead(g)
  {
    if g.gameOver then OnGameOver(g, c, rand)
    else if g.pause then OnPause(g, c, rand)
    else if g.help then OnHelp(g, c, rand)
    else if g.score == 0 then OnFirstMove(g, c, rand)
    else OnDirection(g, c, rand)
  }

  /** A refused key changes nothing. */
  lemma RefusedKeyChangesNothing(g: Game, c: int, rand: nat -> nat)
    requires HasHead(g)
    ensures !OnKey(g, c, rand).consumed ==> OnKey(g, c, rand).next == g
  {
  }

  /** Game over: only 'r' is taken, and it restarts. */
  lemma GameOverTakesOnlyRestart(g: Game, c: int, rand: nat -> nat)
    requires HasHead(g) && g.gameOver
    ensures OnKey(g, c, rand).consumed <==> c == 'r' as int
    ensures c == 'r' as int ==> OnKey(g, c, rand).next == Restart(g, rand)
  {
  }

  /** Paused: arrows move the window and leave the snake alone; 'p' resumes; 'r' restarts. */
  lemma PausedKeys(g: Game, c: int, rand: nat -> nat)
    requires HasHead(g) && !g.gameOver && g.pause
    ensures OnKey(g, c, rand).consumed <==> IsArrow(c) || c == 'p' as int || c == 'r' as int
    ensures IsArrow(c) ==> OnKey(g, c, rand).next == g.(geom := Translate(g.geom, ArrowDelta(c).value))
    ensures c == 'p' as int ==> OnKey(g, c, rand).next == g.(pause := false, move := false)
    ensures c == 'r' as int ==> OnKey(g, c, rand).next == Restart(g, rand)
  {
  }

  /** Help shown: only 'h' (close help) and 'r' are taken. */
  lemma HelpKeys(g: Game, c: int, rand: nat -> nat)
    requires HasHead(g) && !g.gameOver && !g.pause && g.help
    ensures OnKey(g, c, rand).consumed <==> c == 'h' as int || c == 'r' as int
    ensures c == 'h' as int ==> OnKey(g, c, rand).next == g.(help := false, move := false)
    ensures c == 'r' as int ==> OnKey(g, c, rand).next == Restart(g, rand)
  {
  }

  /** In play, any key other than an arrow, 'p', 'r' or 'h' is refused. */
  lemma PlayKeys(g: Game, c: int, rand: nat -> nat)
    requires HasHead(g) && !g.gameOver && !g.pause && !g.help
    ensures OnKey(g, c, rand).consumed <==> IsArrow(c) || c == 'p' as int || c == 'r' as int || c == 'h' as int
  {
  }

  /** With score 0 every arrow turns that way and steps the head, reversal included. */
  lemma FirstMoveFollowsArrow(g: Game, c: int, rand: nat -> nat)
    requires HasHead(g) && !g.gameOver && !g.pause && !g.help && g.score == 0 && IsArrow(c)
    ensures var r := OnKey(g, c, rand);
      r.consumed && r.next == Turn(g, ArrowDirection(c)) &&
      r.next.dir == ArrowDirection(c) && r.next.head == StepIn(g.head, ArrowDirection(c)) && r.next.move
  {
  }

  /** With a body, no arrow makes the new direction the reverse of the old one. */
  lemma NoReversal(g: Game, c: int, rand: nat -> nat)
    requires HasHead(g) && !g.gameOver && !g.pause && !g.help && g.score != 0 && IsArrow(c)
    ensures var r := OnKey(g, c, rand);
      r.consumed && r.next.dir != Opposite(g.dir) && r.next.head == StepIn(g.head, r.next.dir) && r.next.move
  {
  }

  /** With a body, the arrow opposite to the current direction acts as the current direction's arrow. */
  lemma ReverseKeepsStraight(g: Game, c: int, rand: nat -> nat)
    requires HasHead(g) && !g.gameOver && !g.pause && !g.help && g.score != 0
    requires IsArrow(c) && g.dir != Stop && ArrowDirection(c) == Opposite(g.dir)
    ensures OnKey(g, c, rand) == OnKey(g, KeyOf(g.dir), rand)
    ensures OnKey(g, c, rand).next.dir == g.dir
  {
  }

  // ---------------------------------------------------------------- the collision scan

  datatype Verdict = Empty | Body | Collision

  /**
   * The inner loop of printSnake for one grid cell, from body index k on: the first entry
   * equal to the cell draws a body segment and stops the scan; before that, an entry equal to
   * the head ends the game.
   */
  function CellVerdict(xs: seq<int>, ys: seq<int>, n: int, head: Point, cell: Point, k: int): Verdict
    requires 1 <= k && n < |xs| && n < |ys|
    decreases n + 1 - k
  {
    if k > n then Empty
    else if cell.y == ys[k] && cell.x == xs[k] then Body
    else if head.y == ys[k] && head.x == xs[k] then Collision
    else CellVerdict(xs, ys, n, head, cell, k + 1)
  }

  /** printSnake reaches a collision in some cell of its (size.x - 2) x (size.y - 2) grid. */
  ghost predicate ScanCollides(g: Game)
    requires g.score < |g.xs| && g.score < |g.ys|
  {
    exists row, col | 0 <= row < g.geom.size.y - 2 && 0 <= col < g.geom.size.x - 2 ::
      CellVerdict(g.xs, g.ys, g.score, g.head, Point(col, row), 1) == Collision
  }

  /** The head lies on one of the body segments 1..score. */
  ghost predicate HeadOnBody(g: Game)
    requires g.score < |g.xs| && g.score < |g.ys|
  {
    OnTrail(g.xs, g.ys, 1, g.score + 1, g.head)
  }

  /** A collision verdict is only given when the head is on the body. */
  lemma {:induction false} VerdictSound(xs: seq<int>, ys: seq<int>, n: int, head: Point, cell: Point, k: int)
    requires 1 <= k && n < |xs| && n < |ys|
    requires CellVerdict(xs, ys, n, head, cell, k) == Collision
    ensures OnTrail(xs, ys, k, n + 1, head)
    decreases n + 1 - k
  {
    if !(cell.y == ys[k] && cell.x == xs[k]) && !(head.y == ys[k] && head.x == xs[k]) {
      VerdictSound(xs, ys, n, head, cell, k + 1);
    }
  }

  /** For a cell off the body, the scan reports the head on the body. */
  lemma {:induction false} VerdictComplete(xs: seq<int>, ys: seq<int>, n: int, head: Point, cell: Point, k: int)
    requires 1 <= k && n < |xs| && n < |ys|
    requires !OnTrail(xs, ys, k, n + 1, cell) && OnTrail(xs, ys, k, n + 1, head)
    ensures CellVerdict(xs, ys, n, head, cell, k) == Collision
    decreases n + 1 - k
  {
    if !(head.y == ys[k] && head.x == xs[k]) {
      assert !OnTrail(xs, ys, k + 1, n + 1, cell);
      VerdictComplete(xs, ys, n, head, cell, k + 1);
    }
  }

  /**
   * With the 45 x 20 window the program opens (a 43 x 18 grid, the board), the scan ends the
   * game exactly when the head is on the body.
   */
  lemma ScanDetectsCollision(g: Game)
    requires WellFormed(g) && g.geom.size == Point(Width + 2, Height + 2)
    ensures ScanCollides(g) <==> HeadOnBody(g)
  {
    if ScanCollides(g) {
      var row, col :| 0 <= row < g.geom.size.y - 2 && 0 <= col < g.geom.size.x - 2 &&
        CellVerdict(g.xs, g.ys, g.score, g.head, Point(col, row), 1) == Collision;
      VerdictSound(g.xs, g.ys, g.score, g.head, Point(col, row), 1);
    }
    if HeadOnBody(g) {
      FreeCellExists(g.xs, g.ys, 1, g.score + 1);
      var p :| InBoard(p) && !OnTrail(g.xs, g.ys, 1, g.score + 1, p);
      VerdictComplete(g.xs, g.ys, g.score, g.head, p, 1);
      assert CellVerdict(g.xs, g.ys, g.score, g.head, Point(p.x, p.y), 1) == Collision;
    }
  }

  // ---------------------------------------------------------------- paint

  /** throughTheWall. */
  function WrapHead(g: Game): Game {
    g.(head := Wrap(g.head))
  }

  /** setScore. */
  function ScoreUp(g: Game): Game {
    var p := Scored(ProgressOf(g));
    g.(score := p.score, level := p.level, wait := p.wait)
  }

  /** generateNewFruit: the fruit goes to the first try that misses trail entries 0..score-1. */
  ghost function PlaceFruit(g: Game, rand: nat -> nat): Game
    requires 0 <= g.score <= |g.xs| && g.score <= |g.ys|
    requires exists j: nat :: FreeAttempt(rand, g.drawn, g.xs, g.ys, g.score, j)
  {
    var j := FirstFree(rand, g.drawn, g.xs, g.ys, g.score);
    g.(fruit := Attempt(rand, g.drawn, j), drawn := g.drawn + 2 * j + 2)
  }

  /** The try at which the rejection loop stops decides the whole new state. */
  lemma PlacedAt(g: Game, rand: nat -> nat, j: nat)
    requires 0 <= g.score <= |g.xs| && g.score <= |g.ys|
    requires FreeAttempt(rand, g.drawn, g.xs, g.ys, g.score, j)
    requires forall i :: 0 <= i < j ==> !FreeAttempt(rand, g.drawn, g.xs, g.ys, g.score, i)
    ensures PlaceFruit(g, rand) == g.(fruit := Attempt(rand, g.drawn, j), drawn := g.drawn + 2 * j + 2)
  {
    FirstFreeUnique(rand, g.drawn, g.xs, g.ys, g.score, j);
  }

  /** The placed fruit is on the board and off every trail entry generateNewFruit checks. */
  lemma PlacedFruitIsFree(g: Game, rand: nat -> nat)
    requires 0 <= g.score <= |g.xs| && g.score <= |g.ys|
    requires exists j: nat :: FreeAttempt(rand, g.drawn, g.xs, g.ys, g.score, j)
    ensures InBoard(PlaceFruit(g, rand).fruit) && !OnTrail(g.xs, g.ys, 0, g.score, PlaceFruit(g, rand).fruit)
    ensures PlaceFruit(g, rand).drawn > g.drawn
  {
  }

  /** makeMove. */
  function ShiftTrail(g: Game): Game
    requires 0 <= g.score < |g.xs| && g.score < |g.ys|
  {
    g.(xs := Shifted(g.xs, g.score, g.head.x), ys := Shifted(g.ys, g.score, g.head.y))
  }

  /** The state change of printSnake: game over once the scan meets a collision. */
  ghost function Collide(g: Game): Game
    requires g.score < |g.xs| && g.score < |g.ys|
  {
    g.(gameOver := g.gameOver || ScanCollides(g))
  }

  /** paint returns before the game logic while help is shown, or paused without a restart. */
  predicate Holds(g: Game) {
    g.help || (g.pause && !g.restart)
  }

  /**
   * When paint may run: a well-formed state, a rand() stream that keeps drawing every cell,
   * and, when this paint eats the fruit without a restart, room for one more trail entry
   * (makeMove writes index score, and generateNewFruit needs a free cell to stop).
   */
  ghost predicate TickReady(g: Game, rand: nat -> nat) {
    WellFormed(g) && Covers(rand) &&
    (!g.tutorial && !Holds(g) && !g.restart && Wrap(g.head) == g.fruit ==> g.score + 1 < Cells)
  }

  /** The state after wrapping, after restarting first when asked to. */
  function Prepared(g: Game, rand: nat -> nat): Game
    requires HasHead(g)
  {
    WrapHead(if g.restart then Restart(g, rand) else g)
  }

  /** Eating: setScore, then generateNewFruit. */
  ghost function Eat(g: Game, rand: nat -> nat): (r: Game)
    requires WellFormed(g) && Covers(rand) && g.score + 1 < Cells
    ensures WellFormed(r)
  {
    var s := ScoreUp(g);
    ScoredFollowsSchedule(g.score);
    CoversGivesFreeAttempt(rand, s.drawn, s.xs, s.ys, s.score);
    PlaceFruit(s, rand)
  }

  /** The logic of paint, in its order: tutorial, early returns, restart, wrap, eat, move, scan. */
  ghost function Ticked(g: Game, rand: nat -> nat): Game
    requires TickReady(g, rand)
  {
    if g.tutorial then g.(tutorial := false)
    else if Holds(g) then g
    else
      var g1 := Prepared(g, rand);
      RestartWellFormed(g, rand);
      var g2 := if g1.head == g1.fruit then Eat(g1, rand) else g1;
      var g3 := if g2.move then ShiftTrail(g2) else g2;
      Collide(g3)
  }

  /** Every paint keeps the state well formed: score, level and wait stay on the schedule. */
  lemma TickKeepsWellFormed(g: Game, rand: nat -> nat)
    requires TickReady(g, rand)
    ensures WellFormed(Ticked(g, rand))
  {
    RestartWellFormed(g, rand);
  }

  /** The tutorial screen only clears the tutorial flag. */
  lemma TutorialOnlyClears(g: Game, rand: nat -> nat)
    requires TickReady(g, rand) && g.tutorial
    ensures Ticked(g, rand) == g.(tutorial := false)
  {
  }

  /** Help, or a pause without a restart, leaves the state untouched. */
  lemma HeldTickChangesNothing(g: Game, rand: nat -> nat)
    requires TickReady(g, rand) && !g.tutorial && Holds(g)
    ensures Ticked(g, rand) == g
  {
  }

  /** A paint that runs the logic leaves the head on the board and the score up by at most one. */
  lemma TickBounds(g: Game, rand: nat -> nat)
    requires TickReady(g, rand) && !g.tutorial && !Holds(g)
    ensures InBoard(Ticked(g, rand).head)
    ensures var base := if g.restart then 0 else g.score;
      Ticked(g, rand).score == base || Ticked(g, rand).score == base + 1
    ensures Ticked(g, rand).score == (if g.restart then 0 else g.score) + 1 <==> Prepared(g, rand).head == Prepared(g, rand).fruit
  {
    RestartWellFormed(g, rand);
  }

  /** The fruit a paint places lies on the board and off the trail entries it was checked against. */
  lemma FruitPlacedOffTrail(g: Game, rand: nat -> nat)
    requires WellFormed(g) && Covers(rand) && g.score + 1 < Cells
    ensures var r := Eat(g, rand);
      InBoard(r.fruit) && !OnTrail(g.xs, g.ys, 0, g.score + 1, r.fruit) && r.score == g.score + 1
  {
  }

  /** After a move, index 0 holds the head and the new fruit is off every body segment 1..score. */
  lemma EatAndMoveKeepsFruitOffBody(g: Game, rand: nat -> nat)
    requires TickReady(g, rand) && !g.tutorial && !Holds(g)
    requires Prepared(g, rand).head == Prepared(g, rand).fruit && Prepared(g, rand).move
    ensures var r := Ticked(g, rand);
      r.xs[0] == r.head.x && r.ys[0] == r.head.y && !OnTrail(r.xs, r.ys, 1, r.score + 1, r.fruit)
  {
    RestartWellFormed(g, rand);
    var g1 := Prepared(g, rand);
    var g2 := Eat(g1, rand);
    FruitPlacedOffTrail(g1, rand);
    var r := Ticked(g, rand);
    forall i | 1 <= i < r.score + 1
      ensures !(r.xs[i] == r.fruit.x && r.ys[i] == r.fruit.y)
    {
      assert r.xs[i] == g1.xs[i - 1] && r.ys[i] == g1.ys[i - 1];
    }
  }

  /** In the program's 45 x 20 window, a paint that runs the logic ends the game iff the moved head is on the body. */
  lemma TickEndsGameOnCollision(g: Game, rand: nat -> nat)
    requires TickReady(g, rand) && !g.tutorial && !Holds(g)
    requires g.geom.size == Point(Width + 2, Height + 2)
    ensures var r := Ticked(g, rand);
      r.gameOver <==> (g.gameOver && !g.restart) || HeadOnBody(r)
  {
    RestartWellFormed(g, rand);
    var g1 := Prepared(g, rand);
    var g2 := if g1.head == g1.fruit then Eat(g1, rand) else g1;
    var g3 := if g2.move then ShiftTrail(g2) else g2;
    ScanDetectsCollision(g3);
  }
}
