// CSnake: the game widget. Its fields and the two trail arrays are updated in place, as the
// program does; every method is proved to produce the state the matching function of
// SnakeState computes.

module SnakeGame {
  import opened Geometry
  import opened Keys
  import opened SnakeRules
  import opened SnakeState

  class Snake {
    var geom: Rect
    const fill: char
    var x: int
    var y: int
    var fruitX: int
    var fruitY: int
    var score: int
    var level: int
    /** The program-wide tick interval; the snake is the only widget that changes it. */
    var wait: int
    var dir: Direction
    var tutorial: bool
    var gameOver: bool
    var pause: bool
    var help: bool
    var restart: bool
    var move: bool
    const xCoords: array<int>
    const yCoords: array<int>
    /** The values rand() returns, in order, and how many of them have been used. */
    const rand: nat -> nat
    var drawn: nat

    ghost predicate Valid()
      reads this
    {
      xCoords.Length == Cells && yCoords.Length == Cells && xCoords != yCoords &&
      0 <= score < Cells && Progress(score, level, wait) == Schedule(score) &&
      InBoard(Point(fruitX, fruitY))
    }

    ghost function State(): Game
      reads this, xCoords, yCoords
    {
      Game(Point(x, y), Point(fruitX, fruitY), score, level, wait, dir,
           tutorial, gameOver, pause, help, restart, move,
           xCoords[..], yCoords[..], drawn, geom)
    }

    constructor (r: Rect, fill: char, rand: nat -> nat)
      ensures Valid() && fresh(xCoords) && fresh(yCoords) && this.rand == rand
      ensures var g := State();
        g.head == Centre && g.fruit == DrawnCell(rand, 0) && g.drawn == 2 &&
        g.score == 0 && g.level == 1 && g.wait == StartWait && g.dir == Stop &&
        g.tutorial && !g.gameOver && !g.pause && !g.restart && !g.help && !g.move &&
        g.xs[0] == Centre.x && g.ys[0] == Centre.y && g.geom == r
    {
      geom := r;
      this.fill := fill;
      this.rand := rand;
      xCoords := new int[Cells];
      yCoords := new int[Cells];
      x := Width / 2;
      y := Height / 2;
      fruitX := rand(0) % Width;
      fruitY := rand(1) % Height;
      drawn := 2;
      score := 0;
      level := 1;
      wait := StartWait;
      dir := Stop;
      tutorial := true;
      gameOver := false;
      pause := false;
      restart := false;
      help := false;
      move := false;
      new;
      xCoords[0] := x;
      yCoords[0] := y;
    }

    lemma ValidIsWellFormed()
      requires Valid()
      ensures WellFormed(State()) && HasHead(State())
    {
    }

    /** rand(): the next value of the stream. */
    method Rand() returns (v: nat)
      modifies this`drawn
      ensures v == rand(old(drawn)) && drawn == old(drawn) + 1
    {
      v := rand(drawn);
      drawn := drawn + 1;
    }

    method SetRestart()
      requires Valid()
      modifies this, xCoords, yCoords
      ensures Valid() && State() == Restart(old(State()), rand)
    {
      CentreHead();
      DrawFruit();
      ResetFlags();
      StoreHead();
      ResetWait();
    }

    /** wait = 1600: the tick interval goes back to its starting value. */
    method ResetWait()
      modifies this`wait
      ensures wait == StartWait
    {
      wait := StartWait;
    }

    /** The head goes to the middle of the board. */
    method CentreHead()
      modifies this`x, this`y
      ensures x == Centre.x && y == Centre.y
    {
      x := Width / 2;
      y := Height / 2;
    }

    /** x_coords[0] = x; y_coords[0] = y: the head becomes trail entry 0. */
    method StoreHead()
      requires 0 < xCoords.Length && 0 < yCoords.Length && xCoords != yCoords
      modifies xCoords, yCoords
      ensures xCoords[..] == old(xCoords[..])[0 := x] && yCoords[..] == old(yCoords[..])[0 := y]
    {
      xCoords[0] := x;
      yCoords[0] := y;
    }

    /** The flag and counter assignments of setRestart. */
    method ResetFlags()
      modifies this`score, this`level, this`dir, this`tutorial, this`gameOver, this`pause,
        this`restart, this`help, this`move
      ensures score == 0 && level == 1 && dir == Stop
      ensures !tutorial && !gameOver && !pause && !restart && !help && !move
    {
      score := 0;
      level := 1;
      dir := Stop;
      tutorial := false;
      gameOver := false;
      pause := false;
      restart := false;
      help := false;
      move := false;
    }

    method ThroughTheWall()
      modifies this`x, this`y
      ensures State() == WrapHead(old(State()))
    {
      if y < 0 {
        y := Height - 1;
      }
      if y >= Height {
        y := 0;
      }
      if x < 0 {
        x := Width - 1;
      }
      if x >= Width {
        x := 0;
      }
    }

    method SetScore()
      requires Valid() && score + 1 < Cells
      modifies this`score, this`level, this`wait
      ensures Valid() && State() == ScoreUp(old(State()))
    {
      ghost var p := Scored(Progress(score, level, wait));
      ScoredFollowsSchedule(score);
      score := score + 1;
      if score > 0 && score % 3 == 0 {
        level := level + 1;
        if wait > MinWait {
          wait := wait - WaitStep;
        }
      }
      assert Progress(score, level, wait) == p;
    }

    /** The inner scan of generateNewFruit: is (fx, fy) one of trail entries 0..score-1? */
    method Occupied(fx: int, fy: int) returns (found: bool)
      requires 0 <= score <= xCoords.Length && score <= yCoords.Length
      ensures found == OnTrail(xCoords[..], yCoords[..], 0, score, Point(fx, fy))
    {
      found := false;
      var i := 0;
      while i < score
        invariant 0 <= i <= score
        invariant !OnTrail(xCoords[..], yCoords[..], 0, i, Point(fx, fy))
      {
        if fx == xCoords[i] && fy == yCoords[i] {
          found := true;
          break;
        }
        i := i + 1;
      }
    }

    /** The two draws of one try: fruitX = rand() % width, then fruitY = rand() % height. */
    method DrawFruit()
      modifies this`fruitX, this`fruitY, this`drawn
      ensures Point(fruitX, fruitY) == DrawnCell(rand, old(drawn)) && drawn == old(drawn) + 2
    {
      var r := Rand();
      fruitX := r % Width;
      r := Rand();
      fruitY := r % Height;
    }

    /** One try of generateNewFruit: draw a cell and check it against trail entries 0..score-1. */
    method TryCell(ghost start: nat, ghost j: nat) returns (free: bool)
      requires 0 <= score <= xCoords.Length && score <= yCoords.Length && drawn == start + 2 * j
      modifies this`fruitX, this`fruitY, this`drawn
      ensures Point(fruitX, fruitY) == Attempt(rand, start, j) && drawn == start + 2 * j + 2
      ensures free == FreeAttempt(rand, start, xCoords[..], yCoords[..], score, j)
    {
      DrawFruit();
      var found := Occupied(fruitX, fruitY);
      free := !found;
    }

    /** The rejection loop: draw a cell until it misses trail entries 0..score-1. */
    method GenerateNewFruit()
      requires Valid()
      requires exists j: nat :: FreeAttempt(rand, drawn, xCoords[..], yCoords[..], score, j)
      modifies this`fruitX, this`fruitY, this`drawn
      ensures Valid() && State() == PlaceFruit(old(State()), rand)
    {
      ghost var g := State();
      ghost var j := DrawUntilFree(g.xs, g.ys);
      PlacedAt(g, rand, j);
    }

    /** The loop of generateNewFruit; `j` is the number of occupied tries before the free one. */
    method DrawUntilFree(ghost xs: seq<int>, ghost ys: seq<int>) returns (ghost j: nat)
      requires xs == xCoords[..] && ys == yCoords[..] && 0 <= score <= |xs| && score <= |ys|
      requires exists j: nat :: FreeAttempt(rand, drawn, xs, ys, score, j)
      modifies this`fruitX, this`fruitY, this`drawn
      ensures FreeAttempt(rand, old(drawn), xs, ys, score, j)
      ensures forall i :: 0 <= i < j ==> !FreeAttempt(rand, old(drawn), xs, ys, score, i)
      ensures Point(fruitX, fruitY) == Attempt(rand, old(drawn), j) && drawn == old(drawn) + 2 * j + 2
    {
      ghost var start := drawn;
      ghost var w: nat :| FreeAttempt(rand, start, xs, ys, score, w);
      j := 0;
      while true
        invariant drawn == start + 2 * j && j <= w
        invariant forall i :: 0 <= i < j ==> !FreeAttempt(rand, start, xs, ys, score, i)
        decreases w - j
      {
        var free := TryCell(start, j);
        if free {
          break;
        }
        j := j + 1;
      }
    }

    /** makeMove: shift the trail one place up, then store the head as entry 0. */
    method MakeMove()
      requires Valid()
      modifies xCoords, yCoords
      ensures State() == ShiftTrail(old(State()))
    {
      ShiftBody();
      StoreHead();
      assert xCoords[..] == Shifted(old(xCoords[..]), score, x);
      assert yCoords[..] == Shifted(old(yCoords[..]), score, y);
    }

    /** The loop of makeMove: entries score down to 1 take the value of the entry below them. */
    method ShiftBody()
      requires 0 <= score < xCoords.Length && score < yCoords.Length && xCoords != yCoords
      modifies xCoords, yCoords
      ensures xCoords[0] == old(xCoords[0]) && yCoords[0] == old(yCoords[0])
      ensures forall i :: 1 <= i <= score ==> xCoords[i] == old(xCoords[i - 1]) && yCoords[i] == old(yCoords[i - 1])
      ensures forall i :: score < i < xCoords.Length ==> xCoords[i] == old(xCoords[i])
      ensures forall i :: score < i < yCoords.Length ==> yCoords[i] == old(yCoords[i])
    {
      var i := score;
      while i > 0
        invariant 0 <= i <= score
        invariant forall k :: 0 <= k <= i ==> xCoords[k] == old(xCoords[k]) && yCoords[k] == old(yCoords[k])
        invariant forall k :: i < k <= score ==> xCoords[k] == old(xCoords[k - 1]) && yCoords[k] == old(yCoords[k - 1])
        invariant forall k :: score < k < xCoords.Length ==> xCoords[k] == old(xCoords[k])
        invariant forall k :: score < k < yCoords.Length ==> yCoords[k] == old(yCoords[k])
      {
        xCoords[i] := xCoords[i - 1];
        yCoords[i] := yCoords[i - 1];
        i := i - 1;
      }
    }

    /**
     * The inner loop of printSnake for the cell (col, row): scan the body from index 1; an
     * entry equal to the cell stops the scan, one equal to the head before that is a collision.
     */
    method ScanCell(col: int, row: int) returns (v: Verdict)
      requires 0 <= score < xCoords.Length && score < yCoords.Length
      ensures v == CellVerdict(xCoords[..], yCoords[..], score, Point(x, y), Point(col, row), 1)
    {
      var k := 1;
      while k < score + 1
        invariant 1 <= k <= score + 1
        invariant CellVerdict(xCoords[..], yCoords[..], score, Point(x, y), Point(col, row), 1) ==
          CellVerdict(xCoords[..], yCoords[..], score, Point(x, y), Point(col, row), k)
      {
        if row == yCoords[k] && col == xCoords[k] {
          return Body;
        }
        if y == yCoords[k] && x == xCoords[k] {
          return Collision;
        }
        k := k + 1;
      }
      return Empty;
    }

    /**
     * The loops of printSnake: scan the grid row by row and report whether some cell's scan
     * meets the head (where printSnake draws the game-over screen and returns).
     */
    method ScanGrid() returns (hit: bool)
      requires 0 <= score < xCoords.Length && score < yCoords.Length
      ensures hit == ScanCollides(State())
    {
      var row := 0;
      while row < geom.size.y - 2
        invariant 0 <= row
        invariant forall r, c | 0 <= r < row && 0 <= c < geom.size.x - 2 ::
          CellVerdict(xCoords[..], yCoords[..], score, Point(x, y), Point(c, r), 1) != Collision
      {
        var j := 0;
        while j < geom.size.x - 2
          invariant 0 <= j
          invariant forall c | 0 <= c < j ::
            CellVerdict(xCoords[..], yCoords[..], score, Point(x, y), Point(c, row), 1) != Collision
        {
          var v := ScanCell(j, row);
          if v == Collision {
            return true;
          }
          j := j + 1;
        }
        row := row + 1;
      }
      return false;
    }

    /** The state change of printSnake: the game is over once the scan meets the head. */
    method PrintSnake()
      requires Valid()
      modifies this`gameOver
      ensures State() == Collide(old(State()))
    {
      var hit := ScanGrid();
      if hit {
        gameOver := true;
      }
    }

    /** paint, keeping only what it does to the game state. */
    method Tick()
      requires Valid() && TickReady(State(), rand)
      modifies this, xCoords, yCoords
      ensures Valid() && State() == Ticked(old(State()), rand)
    {
      if tutorial {
        tutorial := false;
        return;
      }
      if help {
        return;
      }
      if pause && !help {
        if !restart {
          return;
        }
      }
      ghost var g := State();
      RestartWellFormed(g, rand);
      if restart {
        SetRestart();
      }
      ThroughTheWall();
      assert State() == Prepared(g, rand);
      if x == fruitX && y == fruitY {
        SetScore();
        CoversGivesFreeAttempt(rand, drawn, xCoords[..], yCoords[..], score);
        GenerateNewFruit();
        assert State() == Eat(Prepared(g, rand), rand);
      }
      if move {
        MakeMove();
      }
      PrintSnake();
    }

    /** CWindow::handleEvent as the paused snake uses it: arrows move the window. */
    method HandleFrameKey(c: int) returns (consumed: bool)
      modifies this`geom
      ensures consumed == IsArrow(c)
      ensures geom == if consumed then Translate(old(geom), ArrowDelta(c).value) else old(geom)
    {
      var delta := ArrowDelta(c);
      if delta.Some? {
        geom := Translate(geom, delta.value);
        consumed := true;
      } else {
        consumed := false;
      }
    }

    method HandleGameOver(c: int) returns (consumed: bool)
      requires Valid()
      modifies this, xCoords, yCoords
      ensures Valid() && Reply(consumed, State()) == OnGameOver(old(State()), c, rand)
    {
      if c == 'r' as int {
        SetRestart();
        return true;
      }
      return false;
    }

    method HandlePause(c: int) returns (consumed: bool)
      requires Valid()
      modifies this, xCoords, yCoords
      ensures Valid() && Reply(consumed, State()) == OnPause(old(State()), c, rand)
    {
      consumed := HandleFrameKey(c);
      if consumed {
        return;
      }
      if c == 'p' as int {
        pause := false;
        move := false;
        return true;
      } else if c == 'r' as int {
        SetRestart();
        return true;
      }
      return false;
    }

    method HandleHelp(c: int) returns (consumed: bool)
      requires Valid()
      modifies this, xCoords, yCoords
      ensures Valid() && Reply(consumed, State()) == OnHelp(old(State()), c, rand)
    {
      if c == 'h' as int {
        help := false;
        move := false;
        return true;
      } else if c == 'r' as int {
        SetRestart();
        return true;
      }
      return false;
    }

    /** Set the direction and step the head (the common body of the arrow branches). */
    method Steer(d: Direction)
      modifies this`dir, this`x, this`y, this`move
      ensures State() == Turn(old(State()), d)
    {
      dir := d;
      match d {
        case Left => x := x - 1;
        case Right => x := x + 1;
        case Up => y := y - 1;
        case Down => y := y + 1;
        case Stop =>
      }
      move := true;
    }

    method HandleScore(c: int) returns (consumed: bool)
      requires Valid()
      modifies this, xCoords, yCoords
      ensures Valid() && Reply(consumed, State()) == OnFirstMove(old(State()), c, rand)
    {
      if c == KeyLeft {
        Steer(Left);
      } else if c == KeyRight {
        Steer(Right);
      } else if c == KeyUp {
        Steer(Up);
      } else if c == KeyDown {
        Steer(Down);
      } else if c == 'p' as int {
        pause := true;
      } else if c == 'r' as int {
        SetRestart();
      } else if c == 'h' as int {
        help := true;
      } else {
        return false;
      }
      return true;
    }

    method HandleOther(c: int) returns (consumed: bool)
      requires Valid()
      modifies this, xCoords, yCoords
      ensures Valid() && Reply(consumed, State()) == OnOther(old(State()), c, rand)
    {
      if c == 'p' as int {
        pause := true;
        move := false;
        return true;
      } else if c == 'r' as int {
        SetRestart();
        move := false;
        return true;
      } else if c == 'h' as int {
        help := true;
        move := false;
        return true;
      }
      return false;
    }

    method HandleDirections(c: int) returns (consumed: bool)
      requires Valid()
      modifies this, xCoords, yCoords
      ensures Valid() && Reply(consumed, State()) == OnDirection(old(State()), c, rand)
    {
      if c == KeyLeft && dir != Right {
        Steer(Left);
      } else if c == KeyRight && dir != Left {
        Steer(Right);
      } else if c == KeyUp && dir != Down {
        Steer(Up);
      } else if c == KeyDown && dir != Up {
        Steer(Down);
      } else if c == KeyLeft && dir == Right {
        Steer(Right);
      } else if c == KeyRight && dir == Left {
        Steer(Left);
      } else if c == KeyUp && dir == Down {
        Steer(Down);
      } else if c == KeyDown && dir == Up {
        Steer(Up);
      } else {
        consumed := HandleOther(c);
        return;
      }
      return true;
    }

    /** CSnake::handleEvent: game over, then pause, then help, then score 0, then play. */
    method HandleEvent(c: int) returns (consumed: bool)
      requires Valid()
      modifies this, xCoords, yCoords
      ensures Valid() && Reply(consumed, State()) == OnKey(old(State()), c, rand)
    {
      if gameOver {
        consumed := HandleGameOver(c);
        return;
      }
      if pause {
        consumed := HandlePause(c);
        return;
      }
      if help {
        consumed := HandleHelp(c);
        return;
      }
      if score == 0 {
        consumed := HandleScore(c);
        return;
      }
      consumed := HandleDirections(c);
    }
  }
}
