# Snake on a text-mode window system, in Dafny

This project models the logic of `winsys.cpp`, a small curses window system and the Snake
game built on it. It leaves out the drawing and keeps the state changes:

- **Widgets.** `CWindow`/`CFramedWindow` are movable rectangles. `CInputLine` is a framed
  window that collects typed text. `CGroup` holds an ordered list of children: the last child
  has the focus, and Tab moves that child to the front. `CDesktop` is the root group and runs
  the event loop.
- **Snake (`CSnake`).** The game works on a 43 x 18 torus. The trail is kept in two
  774-entry coordinate arrays. Keys are handled by mode: game over, pause, help, first move,
  then play. All the game logic runs inside `paint`: restart, wrapping through the wall,
  eating the fruit, moving the trail and the collision scan.

The files, one module each:

| file | module | what it holds |
|---|---|---|
| `geometry.dfy` | `Geometry` | `Point`, `Rect`, `Option`, `Translate` (the `+=` of `CView::move`) |
| `keys.dfy` | `Keys` | key codes; the offset each arrow gives |
| `views.dfy` | `Views` | class `Window`; class `InputLine` and its pure text edit `Edit` |
| `snake_rules.dfy` | `SnakeRules` | the board, wrapping, the score/level/wait schedule, the trail shift, the fruit's rejection sampling, a pigeonhole lemma |
| `snake_state.dfy` | `SnakeState` | the whole game state as a value `Game`, and one function per handler and per step of `paint`, with the game's properties proved about them |
| `snake_game.dfy` | `SnakeGame` | class `Snake`: its fields and its two `array<int>` trails, updated in place; each method is proved to produce the state the matching `SnakeState` function computes |
| `composite.dfy` | `Composite` | class `Group` with a `seq<Child>` of children; Tab rotation and its lemmas |
| `desktop.dfy` | `Desktop` | the loop's bookkeeping as a pure `Step`, its invariant, the handleEvent calls each pass makes, and `Run` over a given key sequence |

Modelling choices:

- **The game-wide tick.** `wait` is a global in the program. Only the snake changes it, so it
  is a field of `Snake`.
- **Random numbers.** `rand()` is an injected stream `rand: nat -> nat` plus a counter
  `drawn` of the values used so far. Try `j` of `generateNewFruit` draws the cell
  `(rand(s+2j) % 43, rand(s+2j+1) % 18)`, where `s` is the counter's value on entry.
- **Key codes.** They take the curses values: arrows 258-261, backspace 263, delete 330, the
  timeout code -1, Tab 9, Escape 27. The proofs only use that the codes are distinct and that
  the special keys lie above 255.
- **Calls to `handleEvent`.** A group keeps a ghost record `handled` of every key its
  `handleEvent` was called with and what it answered. It adds nothing to the program; it lets
  the contract of `Run` say which keys reach the desktop and which answers the loop acted on.
- **Dispatch.** `isalnum` is ASCII. Virtual dispatch over the children is the datatype
  `Child` (window, input line or snake) with the method `Offer`.

## Model

| member | source | states |
|---|---|---|
| Geometry.Translate | winsys.cpp:19-22 | moving keeps the size; the top-left corner moves by exactly `delta` |
| Geometry.TranslateUndone | winsys.cpp:19-22 | moving by `delta` and then by `-delta` gives the rectangle back |
| Keys.ArrowDelta | winsys.cpp:40-57 | a key gives an offset iff it is an arrow; the offset is one cell along one axis; which cell is fixed by `SnakeRules.ArrowAgrees` |
| Views.Window.constructor | winsys.cpp:31 | the window takes the given rectangle and fill character |
| Views.Window.Move | winsys.cpp:19-22 | `geom` becomes the translated rectangle |
| Views.Window.HandleEvent | winsys.cpp:40-57 | consumed iff the key is an arrow; then the window moves one cell that way, otherwise `geom` is unchanged |
| Views.Edit | winsys.cpp:102-113 | what a key the frame refused does to the text: delete or backspace drop the last character when there is one, a code in 0..255 that is alphanumeric or a space is appended, anything else is refused (`None`); its properties are the three lemmas below |
| Views.EraseRemovesLast | winsys.cpp:102-107 | delete or backspace on non-empty text removes exactly the last character; on empty text nothing is consumed by the erase rule |
| Views.AppendsExactlyTypable | winsys.cpp:108-113 | any other key is accepted iff it is in 0..255 and alphanumeric or a space, and it is then appended |
| Views.EraseUndoesAppend | winsys.cpp:102-113 | typing a character and then backspace restores the text |
| Views.InputLine.constructor | winsys.cpp:88 | an input line starts with empty text |
| Views.InputLine.HandleEvent | winsys.cpp:98-114 | the frame takes arrows first and moves the line with the text unchanged; otherwise the text becomes the erase/append result, and a refused key changes nothing |
| SnakeRules.ArrowAgrees | winsys.cpp:519-541 | the offset an arrow moves a window by (`ArrowDelta`) is the step the snake's head takes for that arrow: Up is y-1, Down y+1, Left x-1, Right x+1 |
| SnakeRules.Wrap | winsys.cpp:386-401 | after the wrap the head is on the 43 x 18 board; a head already on the board is unchanged |
| SnakeRules.WrapIsTorus | winsys.cpp:386-401 | for a head at most one cell off the board, the wrap equals `x % 43, y % 18` |
| SnakeRules.WrappedStepIsTorusStep | winsys.cpp:386-401 | a step from any board cell, wrapped, is the torus neighbour |
| SnakeRules.WaitFor | winsys.cpp:365-374 | the tick interval for a score stays in 100..1600 and is a multiple of 100 |
| SnakeRules.Scored | winsys.cpp:365-374 | one `setScore`: score +1, and on every multiple of 3 level +1 and wait -100 while wait is above 100; `ScoredSteps` and `ScheduleAfterRestart` tie it to the independent schedule `WaitFor` |
| SnakeRules.ScoredSteps | winsys.cpp:365-374 | `setScore` adds exactly 1; level changes (+1) iff the new score is a multiple of 3; wait changes (-100) only then |
| SnakeRules.ScoredKeepsWaitFloor | winsys.cpp:369-372 | `wait` never drops below 100 |
| SnakeRules.ScoredFollowsSchedule | winsys.cpp:365-374 | one `setScore` takes score n's schedule to score n+1's |
| SnakeRules.ScheduleAfterRestart | winsys.cpp:365-374 | from `setRestart`'s (0, 1, 1600), n calls give level 1 + n/3 and wait max(100, 1600 - 100(n/3)) |
| SnakeRules.Shifted | winsys.cpp:376-384 | entry 0 becomes the head; entry i becomes old entry i-1 for 1 <= i <= score; the entries above score are unchanged |
| SnakeRules.DrawnCell | winsys.cpp:349-350 | two draws reduced mod width and height always give a board cell |
| SnakeRules.SearchFrom | winsys.cpp:346-363 | the result is the first free try at or after j, given that try w is free |
| SnakeRules.FirstFree | winsys.cpp:346-363 | the try where the rejection loop stops is free, and every earlier try is occupied |
| SnakeRules.FirstFreeUnique | winsys.cpp:346-363 | a free try with only occupied tries before it is the one the loop stops at |
| SnakeRules.FreeCellExists | winsys.cpp:346-363 | fewer than 774 trail entries leave some board cell free (pigeonhole) |
| SnakeRules.CoversGivesFreeAttempt | winsys.cpp:346-363 | with a stream that keeps drawing every cell, the rejection loop ends when fewer than 774 entries are checked |
| SnakeState.Restart | winsys.cpp:311-329 | `setRestart`: head at the centre, a fruit from the next two draws, score 0, level 1, STOP, every flag cleared, entry 0 the head, wait 1600; `RestartWellFormed` proves the result well formed and on the schedule |
| SnakeState.RestartWellFormed | winsys.cpp:311-329 | after `setRestart` score is 0, level and wait follow the schedule, the fruit is on the board, and entry 0 is the centre |
| SnakeState.OnGameOver | winsys.cpp:475-484 | after game over only 'r' is consumed, and it restarts; `GameOverTakesOnlyRestart` |
| SnakeState.OnPause | winsys.cpp:486-502 | paused: an arrow moves the window (the frame's handler first), 'p' clears pause and move, 'r' restarts; `PausedKeys` |
| SnakeState.OnHelp | winsys.cpp:504-517 | help shown: 'h' clears help and move, 'r' restarts; `HelpKeys` |
| SnakeState.OnFirstMove | winsys.cpp:519-554 | at score 0 an arrow turns that way and steps the head with no reversal check; 'p', 'r', 'h' set pause, restart, set help; `FirstMoveFollowsArrow`, `PlayKeys` |
| SnakeState.OnOther | winsys.cpp:556-575 | with a body: 'p' pauses, 'r' restarts, 'h' shows help, each also clearing move; `PlayKeys` |
| SnakeState.OnDirection | winsys.cpp:577-629 | with a body: an arrow turns that way unless it is the reverse of the current direction, which keeps going straight; `NoReversal`, `ReverseKeepsStraight` |
| SnakeState.OnKey | winsys.cpp:631-646 | the first mode that holds decides: game over, pause, help, score 0, then directions; `RefusedKeyChangesNothing` and the mode lemmas |
| SnakeState.RefusedKeyChangesNothing | winsys.cpp:631-646 | a key `handleEvent` refuses leaves the whole game state unchanged |
| SnakeState.GameOverTakesOnlyRestart | winsys.cpp:475-484 | after game over only 'r' is consumed, and it restarts |
| SnakeState.PausedKeys | winsys.cpp:486-502 | paused: only arrows, 'p' and 'r' are consumed; arrows move the window and not the snake; 'p' clears pause and move and changes nothing else; 'r' gives exactly `Restart` |
| SnakeState.HelpKeys | winsys.cpp:504-517 | help shown: only 'h' and 'r' are consumed; 'h' clears help and move and changes nothing else; 'r' gives exactly `Restart` |
| SnakeState.PlayKeys | winsys.cpp:631-646 | in play only arrows, 'p', 'r' and 'h' are consumed |
| SnakeState.FirstMoveFollowsArrow | winsys.cpp:519-541 | at score 0 every arrow sets the direction, steps the head one cell that way and sets `move`, with no reversal check |
| SnakeState.NoReversal | winsys.cpp:577-625 | with a body every arrow is consumed; the new direction is never the reverse of the old; the head steps one cell in it |
| SnakeState.ReverseKeepsStraight | winsys.cpp:602-625 | with a body, the arrow opposite to the direction acts exactly like the arrow of the current direction |
| SnakeState.CellVerdict | winsys.cpp:409-419 | the scan of one grid cell over body entries k..score: the first entry on the cell stops it as a body segment, an entry on the head before that ends the game; `VerdictSound`, `VerdictComplete` |
| SnakeState.VerdictSound | winsys.cpp:409-419 | a cell's scan reports a collision only when the head is on a body entry |
| SnakeState.VerdictComplete | winsys.cpp:409-419 | the scan of a cell off the body reports a collision when the head is on the body |
| SnakeState.ScanDetectsCollision | winsys.cpp:403-436 | in the 45 x 20 window the program opens, the scan finds a collision iff the head is on body entries 1..score |
| SnakeState.PlaceFruit | winsys.cpp:346-363 | `generateNewFruit`: the fruit is the first try whose cell is off entries 0..score-1, and the draws advance past it; `PlacedAt`, `PlacedFruitIsFree` |
| SnakeState.PlacedAt | winsys.cpp:346-363 | the first free try fixes the fruit and how many values are drawn |
| SnakeState.PlacedFruitIsFree | winsys.cpp:346-363 | the new fruit is on the board and off trail entries 0..score-1, the only ones checked |
| SnakeState.ShiftTrail | winsys.cpp:376-384 | `makeMove` on the state: both coordinate trails become `Shifted` with the head at entry 0 |
| SnakeState.Collide | winsys.cpp:403-436 | `printSnake`'s effect on the state: game over is set iff the grid scan finds a collision; `ScanDetectsCollision` |
| SnakeState.Ticked | winsys.cpp:443-473 | one `paint`: the tutorial, restart, hold, eat and move cases in the source's order; `TickKeepsWellFormed`, `TickBounds`, `TickEndsGameOnCollision` |
| SnakeState.Eat | winsys.cpp:464-467 | eating keeps the state well formed |
| SnakeState.FruitPlacedOffTrail | winsys.cpp:464-467 | after eating, the score is one higher and the fruit is on the board and off entries 0..old score |
| SnakeState.TickKeepsWellFormed | winsys.cpp:443-473 | every paint keeps score, level and wait on the schedule and the fruit on the board |
| SnakeState.TutorialOnlyClears | winsys.cpp:446-449 | the tutorial screen only clears `tutorial` |
| SnakeState.HeldTickChangesNothing | winsys.cpp:450-459 | with help shown, or paused without a restart, paint changes nothing |
| SnakeState.TickBounds | winsys.cpp:443-473 | after the logic runs the head is on the board; the score rises by one iff the wrapped head met the fruit |
| SnakeState.EatAndMoveKeepsFruitOffBody | winsys.cpp:464-470 | after eating and moving, entry 0 is the head and the fruit is off body entries 1..score |
| SnakeState.TickEndsGameOnCollision | winsys.cpp:443-473 | in the 45 x 20 window, a paint that runs the game logic (no tutorial, not held by help or a pause) leaves the game over iff it was over already (and not restarted) or the moved head is on the body |
| SnakeGame.Snake.constructor | winsys.cpp:259-276 | head at the centre, fruit from the first two draws, score 0, level 1, direction STOP, only `tutorial` set, entry 0 the head |
| SnakeGame.Snake.Rand | winsys.cpp:315-316 | each `rand()` returns the next stream value and advances the counter by one |
| SnakeGame.Snake.SetRestart | winsys.cpp:311-329 | the new state is `Restart` of the old one, and the class invariant holds |
| SnakeGame.Snake.CentreHead | winsys.cpp:313-314 | the head goes to (21, 9) |
| SnakeGame.Snake.ResetFlags | winsys.cpp:317-327 | score 0, level 1, STOP, and every mode flag and `move` cleared |
| SnakeGame.Snake.StoreHead | winsys.cpp:325-326 | entry 0 of each array becomes the head's coordinate; nothing else changes |
| SnakeGame.Snake.ResetWait | winsys.cpp:328 | the tick goes back to 1600 |
| SnakeGame.Snake.ThroughTheWall | winsys.cpp:386-401 | the new state is the old one with the head wrapped |
| SnakeGame.Snake.SetScore | winsys.cpp:365-374 | score, level and wait step as `Scored` says, and stay on the schedule |
| SnakeGame.Snake.DrawFruit | winsys.cpp:349-350 | the fruit becomes the cell drawn from the next two values |
| SnakeGame.Snake.Occupied | winsys.cpp:351-357 | the inner scan finds the fruit iff it equals one of entries 0..score-1 |
| SnakeGame.Snake.TryCell | winsys.cpp:349-357 | one try draws try j's cell and reports whether it is free |
| SnakeGame.Snake.DrawUntilFree | winsys.cpp:348-362 | the loop stops at a free try with every earlier try occupied |
| SnakeGame.Snake.GenerateNewFruit | winsys.cpp:346-363 | the new state is `PlaceFruit` of the old one: the fruit at the first free try |
| SnakeGame.Snake.ShiftBody | winsys.cpp:378-381 | the down-counting loop moves entries 0..score-1 up by one in place and leaves entry 0 and those above score alone |
| SnakeGame.Snake.MakeMove | winsys.cpp:376-384 | both arrays become `Shifted` of the old ones, with the head at entry 0 |
| SnakeGame.Snake.ScanCell | winsys.cpp:409-419 | the per-cell loop returns the cell's verdict: body, collision or empty |
| SnakeGame.Snake.ScanGrid | winsys.cpp:403-420 | the row/column loops report a collision iff some cell of the (w-2) x (h-2) grid gives one |
| SnakeGame.Snake.PrintSnake | winsys.cpp:403-436 | `gameOver` becomes set iff the scan meets a collision; nothing else changes |
| SnakeGame.Snake.Tick | winsys.cpp:443-473 | the new state is `Ticked` of the old one: tutorial, early returns, restart, wrap, eat, move, scan, in that order |
| SnakeGame.Snake.HandleFrameKey | winsys.cpp:488-490 | the frame consumes exactly the arrows and moves the window one cell |
| SnakeGame.Snake.HandleGameOver | winsys.cpp:475-484 | reply and new state as `OnGameOver` |
| SnakeGame.Snake.HandlePause | winsys.cpp:486-502 | reply and new state as `OnPause` |
| SnakeGame.Snake.HandleHelp | winsys.cpp:504-517 | reply and new state as `OnHelp` |
| SnakeGame.Snake.Steer | winsys.cpp:577-582 | sets the direction, steps the head that way and sets `move` |
| SnakeGame.Snake.HandleScore | winsys.cpp:519-554 | reply and new state as `OnFirstMove` |
| SnakeGame.Snake.HandleOther | winsys.cpp:556-575 | reply and new state as `OnOther` |
| SnakeGame.Snake.HandleDirections | winsys.cpp:577-629 | reply and new state as `OnDirection` |
| SnakeGame.Snake.HandleEvent | winsys.cpp:631-646 | reply and new state as `OnKey`: game over, pause, help, score 0, then directions |
| Composite.Reacted | winsys.cpp:40-114 | what a child's own `handleEvent` does to it: a window moves on an arrow; an input line moves on an arrow and otherwise takes the `Edit` result when there is one; a snake takes the state `OnKey` gives; a refused key leaves the child as it was |
| Composite.Offer | winsys.cpp:130 | the focused child's own `handleEvent`: consumed as the child's rule says (`Takes`), and the child changes as `Reacted` says |
| Composite.RotateFocus | winsys.cpp:134-137 | `push_front(back())` then `pop_back()` on a non-empty list: the last child first, then the rest in order; `TabMovesFocus` |
| Composite.Tabbed | winsys.cpp:133-138 | a refused Tab: rotate a non-empty list, leave an empty one; `TabKeepsChildren`, `TabKeepsObjects` |
| Composite.TabbedTimes | winsys.cpp:133-138 | k refused Tabs in a row keep the length; `TabbedTimesSplits` gives their result |
| Composite.TabKeepsChildren | winsys.cpp:133-138 | a Tab rotation keeps the multiset of children |
| Composite.TabMovesFocus | winsys.cpp:133-138 | the old focus goes to the front and the child below it takes the focus |
| Composite.TabbedTimesSplits | winsys.cpp:133-138 | after k Tabs the last k children are at the front, in order |
| Composite.TabCycleRestores | winsys.cpp:133-138 | n Tabs on n children restore the original order |
| Composite.TabKeepsObjects | winsys.cpp:133-138 | a Tab keeps the set of widgets the group reaches |
| Composite.Group.constructor | winsys.cpp:121 | a group starts with its rectangle and no children |
| Composite.Group.Insert | winsys.cpp:141-144 | the child is appended, so it takes the focus |
| Composite.Group.HandleEvent | winsys.cpp:128-140 | consumed iff the focused child consumes the key, or the key is Tab (even with no children); a Tab the child refuses rotates the list, and otherwise the order is unchanged; the focused child changes as its own `handleEvent` does (`Reacted`), and the frame lets nothing else change; the key and the answer are appended to a ghost record of handled keys |
| Composite.Group.RotateChildren | winsys.cpp:134-137 | `push_front(back())` then `pop_back()` moves the last child to the front |
| Desktop.Arm | winsys.cpp:197-202 | the top of a pass: while a pause is counted the loop marks itself paused |
| Desktop.Account | winsys.cpp:216-229 | the pause counting and the choice of the repeat key for a key that was not absorbed as a timeout |
| Desktop.Step | winsys.cpp:196-236 | one pass: a timeout is skipped while counting, repeats `last` otherwise and, if that is refused, falls through as a key; Escape quits; any other key is delivered |
| Desktop.Replay | winsys.cpp:196-236 | the loop variables after a run of passes, each with the answer its repeat got |
| Desktop.Calls | winsys.cpp:204-235 | the handleEvent calls one pass makes: the repeat of `last` it tries, then the key `Step` delivers |
| Desktop.CallsAll | winsys.cpp:196-236 | the handleEvent calls a run of passes makes, in order |
| Desktop.PassCalls | winsys.cpp:204-235 | a key other than a timeout or Escape is delivered as it is; Escape is not delivered; a timeout while counting makes no call; otherwise a timeout repeats `last` and, when that is refused, also delivers the timeout code |
| Desktop.StartBookkept | winsys.cpp:193-195 | the loop's starting values satisfy its invariant |
| Desktop.StepKeepsBookkept | winsys.cpp:196-236 | each pass keeps: count is 0 or 1; paused only while counting; the repeat key is never 'p', 'h' or 'r' |
| Desktop.ReplayKeepsBookkept | winsys.cpp:196-236 | the invariant holds after any sequence of passes |
| Desktop.PauseFreezesLast | winsys.cpp:197-229 | while a pause is counted no key becomes the repeat key, and timeouts are skipped |
| Desktop.SecondPressEndsPause | winsys.cpp:216-226 | one 'p'/'h' starts counting; a second 'p'/'h' or an 'r' restores the unpaused state |
| Desktop.TimeoutRepeatsLast | winsys.cpp:204-210 | outside a pause a timeout whose repeat is consumed changes nothing in the loop |
| Desktop.RefusedRepeatForgetsLast | winsys.cpp:204-229 | a refused repeat lets the timeout code through: it becomes the repeat key and is dispatched |
| Desktop.EscapeQuits | winsys.cpp:230-231 | Escape ends the loop in every state |
| Desktop.NewDesktop | winsys.cpp:157-164 | the desktop is an empty group as large as the screen |
| Desktop.Dispatch | winsys.cpp:232 | consumed iff the focused child consumes the key or the key is Tab; a Tab the child refuses rotates the children, otherwise their order is kept; the focused child changes as its own `handleEvent` does (`Reacted`) and, by the frame, no other child changes; the call and its answer are appended to the record of handled keys; the group stays valid and reaches the same widgets |
| Desktop.Tally | winsys.cpp:216-229 | the three bookkeeping `if`s compute exactly `Account` |
| Desktop.Pass | winsys.cpp:197-235 | one pass of the loop body: the new loop variables are `Step` of the old ones, the answer to the repeat is recorded, and the desktop is called with exactly the keys `Calls` names, each repeat getting the recorded answer |
| Desktop.Run | winsys.cpp:185-237 | the loop reads keys up to and including the first Escape, or all of them; its final variables are the fold of `Step` over them and keep the bookkeeping invariant; the desktop's record of handled keys grows by exactly the calls `CallsAll` names, each repeat with the answer the loop acted on, and a repeat is only answered on a timeout; the child list keeps the same members |

## Left out

- Drawing and terminal calls are not modelled: every `paint` body's output, `printTutorial`, `printHelp`, `printPause`, `printScore` and the text of `printGmaeOver`, screen setup and teardown, `refresh`, `napms`, `timeout`. Of `printTutorial` and `printGmaeOver` only their flag updates are kept (`tutorial := false`, `gameOver := true`).
- `getEvent`: keys come from a given sequence. `Run` stops when the sequence runs out, which the endless `while (1)` never does.
- Desktop.Run: it does none of the loop's paints: not the two start-up paints with the four-second pause between them (`winsys.cpp:188-191`), nor the paint after each consumed key, so it never runs the snake's `Tick`. `Tick`'s precondition (a free cell for the fruit, room in the trail arrays) cannot be kept across an arbitrary key sequence. `Tick` is modelled and proved on its own.
- `main` and `srand` are not modelled. `rand` is the injected stream described above.
- SnakeGame.Snake.GenerateNewFruit: it requires that some later try is free. Without a free try the source loops forever. `Tick` gets that precondition from the assumption `Covers`, that the stream keeps drawing every cell, and from the pigeonhole lemma.
- SnakeGame.Snake.Tick: it requires room for one more trail entry when the snake eats (score + 1 < 774). At 774 the source writes past the end of `x_coords` in `makeMove`, and `generateNewFruit` may never stop.
- SnakeGame.Snake.constructor: it also sets the model's `wait` to 1600. In the program `wait` is a global initialised to 1600 at start-up and the constructor does not touch it. The two agree for the one snake the program creates.
- The array entries the constructor does not write are left unconstrained, as in C++, where they are uninitialised.
- The `restart` flag is modelled, and `paint` acts on it, but no code in the program ever sets it. The handlers call `setRestart` directly.
- `~CGroup`'s `delete` of the children is memory management and is not modelled.
- Groups nested inside groups are not modelled. A child is a window, an input line or a snake, the kinds the program creates.
- `CPoint` and `CRect` come from `cpoint.h`, which is not part of this model. They are integer pairs with component-wise `+=`, and `CRect()` is taken to be all zeros.
- Desktop.Run: it states what each call to the desktop was and answered, not each child's state after the run, since which child has the focus changes as Tabs rotate the list. Each call's effect on the focused child is stated by `Desktop.Dispatch`.
