// CGroup: an ordered list of child widgets. The last child has the focus: it sees every key
// first; Tab, when the focused child refuses it, moves the focused child to the front.

module Composite {
  import opened Geometry
  import opened Keys
  import opened Views
  import opened SnakeState
  import opened SnakeGame

  /** A child of a group: one of the widget kinds the program builds. */
  datatype Child = Plain(window: Window) | Line(line: InputLine) | Play(snake: Snake)

  /** The widget object itself. */
  function Primary(c: Child): object {
    match c
    case Plain(w) => w
    case Line(l) => l
    case Play(s) => s
  }

  /** Everything the child's handleEvent may change: the widget and, for a snake, its trail. */
  function Footprint(c: Child): (r: set<object>)
    ensures Primary(c) in r
  {
    match c
    case Plain(w) => {w}
    case Line(l) => {l}
    case Play(s) => {s, s.xCoords, s.yCoords}
  }

  /** The footprints of all children. */
  function Objects(cs: seq<Child>): set<object> {
    set c, o | c in cs && o in Footprint(c) :: o
  }

  function Primaries(cs: seq<Child>): set<object> {
    set c | c in cs :: Primary(c)
  }

  ghost predicate ChildValid(c: Child)
    reads Primary(c)
  {
    c.Play? ==> c.snake.Valid()
  }

  /** Whether the child's handleEvent consumes `key` in its current state. */
  ghost predicate Takes(c: Child, key: int)
    requires ChildValid(c)
    reads Primary(c), Footprint(c)
  {
    match c
    case Plain(w) => IsArrow(key)
    case Line(l) => l.Accepts(key)
    case Play(s) => s.ValidIsWellFormed(); OnKey(s.State(), key, s.rand).consumed
  }

  /**
   * What the child's own handleEvent does to it for `key`: a window moves on an arrow; an
   * input line moves on an arrow and otherwise takes the `Edit` result when there is one; a
   * snake takes the state `OnKey` gives. A key the child refuses leaves it as it was.
   */
  twostate predicate Reacted(c: Child, key: int)
    reads Primary(c), Footprint(c)
  {
    match c
    case Plain(w) =>
      w.geom == if IsArrow(key) then Translate(old(w.geom), ArrowDelta(key).value) else old(w.geom)
    case Line(l) =>
      if IsArrow(key) then l.geom == Translate(old(l.geom), ArrowDelta(key).value) && l.text == old(l.text)
      else
        l.geom == old(l.geom) &&
        l.text == if Edit(old(l.text), key).Some? then Edit(old(l.text), key).value else old(l.text)
    case Play(s) => HasHead(old(s.State())) && s.State() == OnKey(old(s.State()), key, s.rand).next
  }

  /** The virtual call children.back()->handleEvent(key). */
  method Offer(c: Child, key: int) returns (consumed: bool)
    requires ChildValid(c)
    modifies Footprint(c)
    ensures ChildValid(c) && consumed == old(Takes(c, key))
    ensures Reacted(c, key)
  {
    match c {
      case Plain(w) =>
        consumed := w.HandleEvent(key);
      case Line(l) =>
        consumed := l.HandleEvent(key);
      case Play(s) =>
        s.ValidIsWellFormed();
        consumed := s.HandleEvent(key);
    }
  }

  /** push_front(back()) then pop_back(): the focused child moves to the front. */
  function RotateFocus<T>(s: seq<T>): seq<T>
    requires |s| > 0
  {
    [s[|s| - 1]] + s[..|s| - 1]
  }

  /** What Tab does to the child list when the focused child refuses it. */
  function Tabbed<T>(s: seq<T>): seq<T> {
    if |s| == 0 then s else RotateFocus(s)
  }

  /** `k` refused Tabs in a row. */
  function TabbedTimes<T>(s: seq<T>, k: nat): (r: seq<T>)
    ensures |r| == |s|
  {
    if k == 0 then s else Tabbed(TabbedTimes(s, k - 1))
  }

  /** A Tab keeps exactly the same children, each as often as before. */
  lemma TabKeepsChildren<T>(s: seq<T>)
    ensures multiset(Tabbed(s)) == multiset(s)
    ensures |Tabbed(s)| == |s|
  {
    if |s| > 0 {
      assert s == s[..|s| - 1] + [s[|s| - 1]];
    }
  }

  /** The focus passes to the child just below the old one, and the old focus goes to the bottom. */
  lemma TabMovesFocus<T>(s: seq<T>)
    requires |s| >= 2
    ensures Tabbed(s)[|s| - 1] == s[|s| - 2] && Tabbed(s)[0] == s[|s| - 1]
  {
  }

  /** After k refused Tabs the last k children have been moved to the front, in order. */
  lemma {:induction false} TabbedTimesSplits<T>(s: seq<T>, k: nat)
    requires k <= |s|
    ensures TabbedTimes(s, k) == s[|s| - k..] + s[..|s| - k]
  {
    if k > 0 {
      TabbedTimesSplits(s, k - 1);
      var r := TabbedTimes(s, k - 1);
      var n := |s|;
      assert r[n - 1] == s[n - k];
      assert r[..n - 1] == s[n - k + 1..] + s[..n - k];
      calc {
        TabbedTimes(s, k);
        [r[n - 1]] + r[..n - 1];
        [s[n - k]] + (s[n - k + 1..] + s[..n - k]);
        { assert [s[n - k]] + s[n - k + 1..] == s[n - k..]; }
        s[n - k..] + s[..n - k];
      }
    }
  }

  /** n refused Tabs on n children give the original order back. */
  lemma {:induction false} TabCycleRestores<T>(s: seq<T>)
    ensures TabbedTimes(s, |s|) == s
  {
    TabbedTimesSplits(s, |s|);
    assert s[0..] == s;
  }

  /** A Tab keeps the set of widgets a group reaches. */
  lemma TabKeepsObjects(cs: seq<Child>)
    ensures Objects(Tabbed(cs)) == Objects(cs) && Primaries(Tabbed(cs)) == Primaries(cs)
  {
    TabKeepsChildren(cs);
    assert forall c :: c in Tabbed(cs) <==> c in cs by {
      forall c
        ensures c in Tabbed(cs) <==> c in cs
      {
        assert c in multiset(Tabbed(cs)) <==> c in multiset(cs);
      }
    }
  }

  /** CGroup. */
  class Group {
    var geom: Rect
    var children: seq<Child>
    /** Every key handleEvent has been called with, and what it answered, oldest first. */
    ghost var handled: seq<(int, bool)>

    ghost predicate Valid()
      reads this, Primaries(children)
    {
      forall c | c in children :: ChildValid(c)
    }

    /** The objects the focused child may change. */
    function Focus(): set<object>
      reads this
    {
      if |children| == 0 then {} else Footprint(children[|children| - 1])
    }

    /** The focused child exists and consumes `key`. */
    ghost predicate FocusTakes(key: int)
      requires Valid()
      reads this, Primaries(children), Focus()
    {
      |children| > 0 && Takes(children[|children| - 1], key)
    }

    constructor (g: Rect)
      ensures geom == g && children == [] && handled == [] && Valid()
    {
      geom := g;
      children := [];
      handled := [];
    }

    /** insert: the new child goes to the back, so it takes the focus. */
    method Insert(c: Child)
      requires Valid() && ChildValid(c)
      modifies this
      ensures Valid() && children == old(children) + [c] && geom == old(geom) && handled == old(handled)
    {
      children := children + [c];
    }

    /**
     * handleEvent: the focused child sees the key first; a Tab it refuses rotates the
     * children (and is consumed even when there are none); every other key is refused.
     */
    method HandleEvent(key: int) returns (consumed: bool)
      requires Valid()
      modifies this, Focus()
      ensures Valid() && geom == old(geom)
      ensures consumed == (old(FocusTakes(key)) || key == Tab)
      ensures children == if !old(FocusTakes(key)) && key == Tab then Tabbed(old(children)) else old(children)
      ensures handled == old(handled) + [(key, consumed)]
      ensures |old(children)| > 0 ==> Reacted(old(children)[|old(children)| - 1], key)
    {
      if |children| > 0 {
        var c := children[|children| - 1];
        consumed := Offer(c, key);
        if consumed {
          handled := handled + [(key, true)];
          return;
        }
      }
      if key == Tab {
        if |children| > 0 {
          RotateChildren();
        }
        handled := handled + [(key, true)];
        return true;
      }
      handled := handled + [(key, false)];
      return false;
    }

    /** children.push_front(children.back()); children.pop_back(). */
    method RotateChildren()
      requires Valid() && |children| > 0
      modifies this`children
      ensures Valid() && children == RotateFocus(old(children))
    {
      children := [children[|children| - 1]] + children;
      children := children[..|children| - 1];
      assert children == RotateFocus(old(children));
      TabKeepsObjects(old(children));
    }
  }
}
