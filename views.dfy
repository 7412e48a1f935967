// The leaf widgets: CWindow / CFramedWindow (a movable rectangle) and CInputLine (a framed
// window that also collects typed text). Painting is terminal output and is not modelled.

module Views {
  import opened Geometry
  import opened Keys

  /** CWindow and CFramedWindow: they differ only in how they paint, so one class with a flag. */
  class Window {
    var geom: Rect
    const fill: char
    const framed: bool

    constructor (r: Rect, fill: char, framed: bool)
      ensures geom == r && this.fill == fill && this.framed == framed
    {
      geom := r;
      this.fill := fill;
      this.framed := framed;
    }

    /** CView::move. */
    method Move(delta: Point)
      modifies this
      ensures geom == Translate(old(geom), delta)
    {
      geom := Translate(geom, delta);
    }

    /** CWindow::handleEvent: an arrow moves the window one cell; every other key is refused. */
    method HandleEvent(key: int) returns (consumed: bool)
      modifies this
      ensures consumed == IsArrow(key)
      ensures geom == if consumed then Translate(old(geom), ArrowDelta(key).value) else old(geom)
    {
      var delta := ArrowDelta(key);
      if delta.Some? {
        Move(delta.value);
        consumed := true;
      } else {
        consumed := false;
      }
    }
  }

  /** isalnum in the C locale: an ASCII letter or digit. */
  predicate IsAlnum(c: int) {
    ('0' as int <= c <= '9' as int) || ('A' as int <= c <= 'Z' as int) || ('a' as int <= c <= 'z' as int)
  }

  /** A code CInputLine appends: in 0..255 and alphanumeric or a space. */
  predicate Typable(c: int) {
    0 <= c <= 255 && (IsAlnum(c) || c == ' ' as int)
  }

  /**
   * What CInputLine::handleEvent does with a key its frame refused: the new text, or None
   * when the key is not consumed.
   */
  function Edit(text: string, c: int): Option<string> {
    if (c == KeyDelete || c == KeyBackspace) && |text| > 0 then Some(text[..|text| - 1])
    else if c > 255 || c < 0 then None
    else if !IsAlnum(c) && c != ' ' as int then None
    else Some(text + [c as char])
  }

  /** Delete and backspace on a non-empty text remove exactly its last character. */
  lemma EraseRemovesLast(text: string, c: int)
    requires c == KeyDelete || c == KeyBackspace
    ensures |text| > 0 ==> Edit(text, c) == Some(text[..|text| - 1])
    ensures |text| == 0 ==> Edit(text, c) == None
  {
  }

  /** A key is appended exactly when it is typable; every other non-erase key is refused. */
  lemma AppendsExactlyTypable(text: string, c: int)
    requires c != KeyDelete && c != KeyBackspace
    ensures Edit(text, c).Some? <==> Typable(c)
    ensures Typable(c) ==> Edit(text, c) == Some(text + [c as char])
  {
  }

  /** Typing a character and erasing it gives the text back. */
  lemma EraseUndoesAppend(text: string, c: int)
    requires Typable(c)
    ensures Edit(text, c).Some? && Edit(Edit(text, c).value, KeyBackspace) == Some(text)
  {
    assert (text + [c as char])[..|text|] == text;
  }

  class InputLine {
    var geom: Rect
    const fill: char
    var text: string

    constructor (r: Rect, fill: char)
      ensures geom == r && this.fill == fill && text == ""
    {
      geom := r;
      this.fill := fill;
      text := "";
    }

    /** The keys CInputLine::handleEvent consumes: arrows first, then the text edits. */
    function Accepts(key: int): bool
      reads this
    {
      IsArrow(key) || Edit(text, key).Some?
    }

    /** CInputLine::handleEvent: the frame's arrow handling first, then erase or append. */
    method HandleEvent(c: int) returns (consumed: bool)
      modifies this
      ensures consumed == old(Accepts(c))
      ensures IsArrow(c) ==> geom == Translate(old(geom), ArrowDelta(c).value) && text == old(text)
      ensures !IsArrow(c) ==> geom == old(geom)
      ensures !IsArrow(c) && Edit(old(text), c).Some? ==> text == Edit(old(text), c).value
      ensures !consumed ==> text == old(text)
    {
      var delta := ArrowDelta(c);
      if delta.Some? {
        geom := Translate(geom, delta.value);
        return true;
      }
      if c == KeyDelete || c == KeyBackspace {
        if |text| > 0 {
          text := text[..|text| - 1];
          return true;
        }
      }
      if c > 255 || c < 0 {
        return false;
      }
      if !IsAlnum(c) && c != ' ' as int {
        return false;
      }
      text := text + [c as char];
      return true;
    }
  }
}
