// CDesktop: the root group and its event loop. Reading a key, the input timeout and the
// paints are terminal calls; what is modelled is the loop's own bookkeeping (a pause
// counter, a pause flag and the last key to repeat on a timeout) and the calls it makes to
// the desktop's handleEvent.

module Desktop {
  import opened Geometry
  import opened Keys
  import opened Composite

  /** The variables run() keeps from one key to the next. */
  datatype Loop = Loop(count: int, pause: bool, last: int)

  /** int last = 0; int count = 0; bool pause = false. */
  const Start: Loop := Loop(0, false, 0)

  /** What one pass of the loop does once it has read a key. */
  datatype Outcome =
    | Skip            // a timeout while a pause is counted: nothing is dispatched
    | Repeated        // a timeout, and the desktop consumed `last` again
    | Quit            // Escape leaves the loop
    | Deliver(key: int)  // the key goes to the desktop's handleEvent

  /** The top of a pass: while a pause is counted the loop marks itself paused. */
  function Arm(s: Loop): Loop {
    if s.count == 0 then s else s.(pause := true)
  }

  /**
   * The bookkeeping of a key that is not consumed as a timeout: 'p' and 'h' count presses,
   * two of them or an 'r' after one end the pause; any other key read while not paused
   * becomes the key to repeat.
   */
  function Account(s: Loop, c: int): Loop {
    var s1 :=
      if c == 'p' as int || c == 'h' as int then
        if s.count + 1 == 2 then s.(count := 0, pause := false) else s.(count := s.count + 1)
      else s;
    var s2 := if s1.count == 1 && c == 'r' as int then s1.(count := 0, pause := false) else s1;
    if c != 'p' as int && c != 'h' as int && c != 'r' as int && !s2.pause then s2.(last := c) else s2
  }

  /**
   * One pass of the loop for the key `c` read; `repeated` is what the desktop's handleEvent
   * returns for `last` when `c` is a timeout and no pause is counted. A timeout whose repeat
   * is refused falls through with c still equal to the timeout code.
   */
  function Step(s: Loop, c: int, repeated: bool): (Loop, Outcome) {
    var a := Arm(s);
    if c == Err && a.count != 0 then (a, Skip)
    else if c == Err && repeated then (a, Repeated)
    else (Account(a, c), if c == Escape then Quit else Deliver(c))
  }

  /** The passes for a run of keys, each with the answer a repeat of `last` gets. */
  function Replay(s: Loop, keys: seq<int>, repeated: seq<bool>): Loop
    requires |repeated| == |keys|
  {
    if |keys| == 0 then s
    else Step(Replay(s, keys[..|keys| - 1], repeated[..|keys| - 1]), keys[|keys| - 1], repeated[|keys| - 1]).0
  }

  /**
   * A call the loop makes to the desktop's handleEvent: the repeat of `last` on a timeout,
   * with the answer the loop acted on, or the delivery of a key it read.
   */
  datatype Call = Again(key: int, answer: bool) | Fresh(key: int)

  /** The calls one pass makes: the repeat it tries, then the key its outcome delivers. */
  function Calls(s: Loop, c: int, repeated: bool): seq<Call> {
    var a := Arm(s);
    var tried := if c == Err && a.count == 0 then [Again(a.last, repeated)] else [];
    match Step(s, c, repeated).1
    case Deliver(k) => tried + [Fresh(k)]
    case _ => tried
  }

  /** The calls a run of passes makes, in order. */
  function CallsAll(s: Loop, keys: seq<int>, repeated: seq<bool>): seq<Call>
    requires |repeated| == |keys|
  {
    if |keys| == 0 then []
    else
      var n := |keys| - 1;
      CallsAll(s, keys[..n], repeated[..n]) + Calls(Replay(s, keys[..n], repeated[..n]), keys[n], repeated[n])
  }

  /** One more pass extends the fold and the calls by that pass. */
  lemma ReplayExtends(s: Loop, keys: seq<int>, repeated: seq<bool>, c: int, r: bool)
    requires |repeated| == |keys|
    ensures Replay(s, keys + [c], repeated + [r]) == Step(Replay(s, keys, repeated), c, r).0
    ensures CallsAll(s, keys + [c], repeated + [r]) == CallsAll(s, keys, repeated) + Calls(Replay(s, keys, repeated), c, r)
  {
    assert (keys + [c])[..|keys|] == keys;
    assert (repeated + [r])[..|keys|] == repeated;
  }

  /** A record of handleEvent calls matches the calls: same keys, and each repeat got its answer. */
  predicate Answers(log: seq<(int, bool)>, calls: seq<Call>) {
    |log| == |calls| &&
    forall i | 0 <= i < |calls| :: log[i].0 == calls[i].key && (calls[i].Again? ==> log[i].1 == calls[i].answer)
  }

  lemma AnswersAppend(log1: seq<(int, bool)>, calls1: seq<Call>, log2: seq<(int, bool)>, calls2: seq<Call>)
    requires Answers(log1, calls1) && Answers(log2, calls2)
    ensures Answers(log1 + log2, calls1 + calls2)
  {
  }

  /** Every pass hands the desktop what it read, except Escape and the timeouts it absorbs. */
  lemma PassCalls(s: Loop, c: int, repeated: bool)
    ensures c != Err && c != Escape ==> Calls(s, c, repeated) == [Fresh(c)]
    ensures c == Escape ==> Calls(s, c, repeated) == []
    ensures c == Err && s.count != 0 ==> Calls(s, c, repeated) == []
    ensures c == Err && s.count == 0 ==>
      Calls(s, c, repeated) == if repeated then [Again(s.last, true)] else [Again(s.last, false), Fresh(Err)]
  {
  }

  /** What the loop keeps true: the counter is 0 or 1, paused only while counting, and the
      key to repeat is never one of the mode keys. */
  predicate Bookkept(s: Loop) {
    ((s.count == 0 && !s.pause) || s.count == 1) &&
    s.last != 'p' as int && s.last != 'h' as int && s.last != 'r' as int
  }

  lemma StartBookkept()
    ensures Bookkept(Start)
  {
  }

  lemma StepKeepsBookkept(s: Loop, c: int, repeated: bool)
    requires Bookkept(s)
    ensures Bookkept(Step(s, c, repeated).0)
  {
  }

  lemma {:induction false} ReplayKeepsBookkept(s: Loop, keys: seq<int>, repeated: seq<bool>)
    requires Bookkept(s) && |repeated| == |keys|
    ensures Bookkept(Replay(s, keys, repeated))
    decreases |keys|
  {
    if |keys| > 0 {
      ReplayKeepsBookkept(s, keys[..|keys| - 1], repeated[..|keys| - 1]);
      StepKeepsBookkept(Replay(s, keys[..|keys| - 1], repeated[..|keys| - 1]), keys[|keys| - 1], repeated[|keys| - 1]);
    }
  }

  /** While a pause is counted no key becomes the key to repeat, and timeouts are skipped. */
  lemma PauseFreezesLast(s: Loop, c: int, repeated: bool)
    requires Bookkept(s) && s.count == 1
    ensures Step(s, c, repeated).0.last == s.last
    ensures c == Err ==> Step(s, c, repeated) == (s.(pause := true), Skip)
  {
  }

  /** Two 'p' or 'h' presses, or a 'p' or 'h' then an 'r', end the pause. */
  lemma SecondPressEndsPause(s: Loop, c: int, d: int, r1: bool, r2: bool)
    requires Bookkept(s) && s.count == 0
    requires c == 'p' as int || c == 'h' as int
    requires d == 'p' as int || d == 'h' as int || d == 'r' as int
    ensures Step(s, c, r1).0.count == 1
    ensures Step(Step(s, c, r1).0, d, r2).0 == s
  {
  }

  /** Outside a pause a timeout repeats `last`; the repeated key changes nothing here. */
  lemma TimeoutRepeatsLast(s: Loop)
    requires Bookkept(s) && s.count == 0
    ensures Step(s, Err, true) == (s, Repeated)
  {
  }

  /** A refused repeat lets the timeout code through: it becomes `last` and is dispatched. */
  lemma RefusedRepeatForgetsLast(s: Loop)
    requires Bookkept(s) && s.count == 0
    ensures Step(s, Err, false) == (s.(last := Err), Deliver(Err))
  {
  }

  /** Escape always ends the loop, paused or not. */
  lemma EscapeQuits(s: Loop, repeated: bool)
    requires Bookkept(s)
    ensures Step(s, Escape, repeated).1 == Quit
    ensures s.count == 0 ==> Step(s, Escape, repeated).0.last == Escape
  {
  }

  /** CDesktop(): an empty root group covering the whole screen of the given size. */
  method NewDesktop(rows: int, cols: int) returns (d: Group)
    ensures fresh(d) && d.Valid()
    ensures d.geom == Rect(Point(0, 0), Point(cols, rows)) && d.children == []
  {
    d := new Group(Rect(Point(0, 0), Point(0, 0)));
    d.geom := Rect(d.geom.topLeft, Point(cols, d.geom.size.y));
    d.geom := Rect(d.geom.topLeft, Point(d.geom.size.x, rows));
  }

  /** The focused child's footprint is part of what the group reaches. */
  lemma FocusInObjects(cs: seq<Child>)
    ensures |cs| > 0 ==> Footprint(cs[|cs| - 1]) <= Objects(cs)
  {
    if |cs| > 0 {
      var c := cs[|cs| - 1];
      assert c in cs;
      forall o | o in Footprint(c)
        ensures o in Objects(cs)
      {
      }
    }
  }

  /** desktop.handleEvent(key): only the focused child may change, and the desktop reaches the same widgets. */
  method Dispatch(desktop: Group, key: int, ghost reach: set<object>) returns (consumed: bool)
    requires desktop.Valid() && Objects(desktop.children) == reach
    modifies desktop, desktop.Focus()
    ensures desktop.Valid() && Objects(desktop.children) == reach
    ensures consumed == (old(desktop.FocusTakes(key)) || key == Tab)
    ensures desktop.children ==
      if !old(desktop.FocusTakes(key)) && key == Tab then Tabbed(old(desktop.children)) else old(desktop.children)
    ensures multiset(desktop.children) == multiset(old(desktop.children))
    ensures desktop.handled == old(desktop.handled) + [(key, consumed)]
    ensures |old(desktop.children)| > 0 ==> Reacted(old(desktop.children)[|old(desktop.children)| - 1], key)
  {
    ghost var before := desktop.children;
    consumed := desktop.HandleEvent(key);
    TabKeepsChildren(before);
    TabKeepsObjects(before);
  }

  /** The pause counting and the choice of the key to repeat, for a key that was not absorbed. */
  method Tally(count0: int, pause0: bool, last0: int, c: int) returns (count: int, pause: bool, last: int)
    ensures Loop(count, pause, last) == Account(Loop(count0, pause0, last0), c)
  {
    count, pause, last := count0, pause0, last0;
    if c == 'p' as int || c == 'h' as int {
      count := count + 1;
      if count == 2 {
        count := 0;
        pause := false;
      }
    }
    if count == 1 && c == 'r' as int {
      count := 0;
      pause := false;
    }
    if c != 'p' as int && c != 'h' as int && c != 'r' as int && !pause {
      last := c;
    }
  }

  /**
   * One pass of run() for the key `c` it read: the repeat of `last` on a timeout, the pause
   * bookkeeping and the delivery of `c`. Returning early is the loop's `continue`; Escape is
   * not delivered, as the loop leaves before handing it over. `again` is the answer to the
   * repeat, and `pass` the calls made to the desktop's handleEvent with their answers.
   */
  method Pass(desktop: Group, ghost reach: set<object>, count0: int, pause0: bool, last0: int, c: int)
    returns (count: int, pause: bool, last: int, again: bool, ghost pass: seq<(int, bool)>)
    requires desktop.Valid() && Objects(desktop.children) == reach
    modifies desktop, reach
    ensures desktop.Valid() && Objects(desktop.children) == reach
    ensures multiset(desktop.children) == multiset(old(desktop.children))
    ensures Loop(count, pause, last) == Step(Loop(count0, pause0, last0), c, again).0
    ensures again ==> c == Err
    ensures desktop.handled == old(desktop.handled) + pass
    ensures Answers(pass, Calls(Loop(count0, pause0, last0), c, again))
  {
    count, pause, last := count0, pause0, last0;
    again := false;
    pass := [];
    PassCalls(Loop(count0, pause0, last0), c, false);
    PassCalls(Loop(count0, pause0, last0), c, true);
    if count != 0 {
      pause := true;
    }
    if c == Err {
      if count == 0 {
        FocusInObjects(desktop.children);
        again := Dispatch(desktop, last, reach);
        pass := [(last, again)];
        if again {
          return;
        }
      } else {
        return;
      }
    }
    count, pause, last := Tally(count, pause, last, c);
    if c != Escape {
      FocusInObjects(desktop.children);
      var answer := Dispatch(desktop, c, reach);
      pass := pass + [(c, answer)];
    }
  }

  /** A repeat is answered only on a pass that read a timeout. */
  predicate RepeatsOnTimeouts(keys: seq<int>, repeated: seq<bool>)
    requires |repeated| == |keys|
  {
    forall i | 0 <= i < |keys| :: repeated[i] ==> keys[i] == Err
  }

  /** The record of one more pass extends the record of the passes before it. */
  lemma PassRecorded(keys: seq<int>, repeated: seq<bool>, log: seq<(int, bool)>, c: int, r: bool, pass: seq<(int, bool)>)
    requires |repeated| == |keys| && Answers(log, CallsAll(Start, keys, repeated))
    requires RepeatsOnTimeouts(keys, repeated) && (r ==> c == Err)
    requires Answers(pass, Calls(Replay(Start, keys, repeated), c, r))
    ensures Replay(Start, keys + [c], repeated + [r]) == Step(Replay(Start, keys, repeated), c, r).0
    ensures Answers(log + pass, CallsAll(Start, keys + [c], repeated + [r]))
    ensures RepeatsOnTimeouts(keys + [c], repeated + [r])
  {
    ReplayExtends(Start, keys, repeated, c, r);
    AnswersAppend(log, CallsAll(Start, keys, repeated), pass, Calls(Replay(Start, keys, repeated), c, r));
  }

  /**
   * run(): read keys from `keys` in order until Escape or the end of the input, and hand
   * them to the desktop as the loop does. `used` counts the keys read; `repeated` records,
   * for each one, what the desktop answered when a timeout made it repeat `last`; `log` is
   * what the desktop's handleEvent was called with and answered, in order.
   */
  method Run(desktop: Group, keys: seq<int>)
    returns (used: nat, escaped: bool, final: Loop, ghost repeated: seq<bool>, ghost log: seq<(int, bool)>)
    requires desktop.Valid()
    modifies desktop, Objects(desktop.children)
    ensures desktop.Valid() && multiset(desktop.children) == multiset(old(desktop.children))
    ensures used <= |keys| && |repeated| == used
    ensures escaped == (Escape in keys)
    ensures escaped ==> 0 < used && keys[used - 1] == Escape && Escape !in keys[..used - 1]
    ensures !escaped ==> used == |keys|
    ensures final == Replay(Start, keys[..used], repeated) && Bookkept(final)
    ensures RepeatsOnTimeouts(keys[..used], repeated)
    ensures desktop.handled == old(desktop.handled) + log
    ensures Answers(log, CallsAll(Start, keys[..used], repeated))
  {
    var last := 0;
    var count := 0;
    var pause := false;
    ghost var reach := Objects(desktop.children);
    ghost var start := desktop.handled;
    ghost var family := multiset(desktop.children);
    used := 0;
    repeated := [];
    log := [];
    escaped := false;
    while used < |keys|
      invariant used <= |keys| && |repeated| == used
      invariant Escape !in keys[..used]
      invariant desktop.Valid() && Objects(desktop.children) == reach
      invariant multiset(desktop.children) == family
      invariant Loop(count, pause, last) == Replay(Start, keys[..used], repeated)
      invariant RepeatsOnTimeouts(keys[..used], repeated)
      invariant desktop.handled == start + log
      invariant Answers(log, CallsAll(Start, keys[..used], repeated))
    {
      ghost var before, answered, trail := keys[..used], repeated, log;
      var c := keys[used];
      assert keys[..used + 1] == before + [c];
      used := used + 1;
      var again;
      ghost var pass;
      count, pause, last, again, pass := Pass(desktop, reach, count, pause, last, c);
      repeated := repeated + [again];
      log := log + pass;
      PassRecorded(before, answered, trail, c, again, pass);
      if c == Escape {
        escaped := true;
        break;
      }
    }
    final := Loop(count, pause, last);
    StartBookkept();
    ReplayKeepsBookkept(Start, keys[..used], repeated);
  }
}
