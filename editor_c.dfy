/** editor.c, the earlier editor: the cursor is a line and a column, and
    the offset they stand for is computed on demand; there is no tab
    expansion, selection, clipboard or search. */
module Early {
  import opened Chars
  import opened Wrappers
  import opened Scan
  import opened Columns
  import opened Splice
  import opened View

  /** The smaller of `a` and `b`. */
  function Min(a: int, b: int): int {
    if a < b then a else b
  }

  /** `getLineCount`: walk the text from `p`, counting newlines onto `ln`. */
  function CountLinesFrom(t: seq<char>, p: nat, ln: int): (r: int)
    requires p <= |t|
    ensures r == ln - LineAt(t, p) + LineAt(t, |t|)
    decreases |t| - p
  {
    if p == |t| then ln else CountLinesFrom(t, p + 1, if t[p] == '\n' then ln + 1 else ln)
  }

  /** `getLineCount`: one more than the number of newlines. */
  function LineCount(t: seq<char>): (r: int)
    ensures r == LineAt(t, |t|)
    ensures r == 1 + multiset(t)['\n']
  {
    LineAtCountsNewlines(t, |t|);
    assert t[..|t|] == t;
    CountLinesFrom(t, 0, 1)
  }

  /** editor.c's `deleteChars` on the buffer as written, terminator
      included: `buf[..size + 1]` moves down by `len` from `pos + len` and
      `size` drops by `len`, whether or not the moved bytes existed. */
  function DeleteCharsAsWritten(buf: seq<char>, size: nat, pos: nat, len: nat): (r: (seq<char>, int))
    requires size < |buf| && pos + len <= size + 1
    ensures |r.0| == |buf| && r.1 == size - len
    ensures r.0[..pos] == buf[..pos] && r.0[size - len + 1..] == buf[size - len + 1..]
  {
    var moved := buf[pos + len..size + 1];
    (buf[..pos] + moved + buf[pos + |moved|..], size - len)
  }

  /** A C string of length `size` in `buf` ending at its terminator. */
  predicate IsCString(buf: seq<char>, size: int) {
    0 <= size < |buf| && buf[size] == NUL && NulFree(buf[..size])
  }

  /** Inside the text the as-written deletion keeps the buffer a C string
      whose characters are the text with `[pos, pos + len)` removed. */
  lemma DeleteInsideText(buf: seq<char>, size: nat, pos: nat, len: nat)
    requires IsCString(buf, size) && pos + len <= size
    ensures var r := DeleteCharsAsWritten(buf, size, pos, len);
            IsCString(r.0, r.1) && r.0[..r.1] == Delete(buf[..size], pos, len)
  {
    var r := DeleteCharsAsWritten(buf, size, pos, len);
    var moved := buf[pos + len..size + 1];
    assert r.0[pos..pos + |moved|] == moved;
    assert r.0[..r.1] == buf[..pos] + buf[pos + len..size];
  }

  /** The Delete key at the end of the text deletes one character past the
      last: nothing moves, `size` drops anyway, and the buffer is no longer
      a C string of that size: here "a" keeps its `a` at offset 0 while
      `size` says the text is empty. */
  lemma DeleteAtEndAsWritten()
    ensures var r := DeleteCharsAsWritten(['a', NUL], 1, 1, 1);
            r.1 == 0 && r.0[0] == 'a' && !IsCString(r.0, r.1)
  {
  }

  /** Typing at a cursor that stands for an offset leaves the cursor
      standing for the offset just after what was typed, when that holds no
      newline or is a single newline. */
  lemma TypedCursorFollows(t: seq<char>, l: int, c: int, cmd: seq<char>)
    requires PlainLineColumnToPosition(t, l, c) >= 0
    requires cmd == ['\n'] || '\n' !in cmd
    ensures var pos := PlainLineColumnToPosition(t, l, c);
            var ins := TypedBytes(cmd);
            var u := Insert(t, pos, ins);
            if cmd == ['\n'] then PlainLineColumnToPosition(u, l + 1, 1) == pos + 1
            else PlainLineColumnToPosition(u, l, c + |ins|) == pos + |ins|
  {
    var pos := PlainLineColumnToPosition(t, l, c);
    var ins := TypedBytes(cmd);
    var u := Insert(t, pos, ins);
    assert u[..pos] == t[..pos];
    LineAtPrefix(t, u, pos);
    PlainColAtPrefix(t, u, pos);
    if cmd == ['\n'] {
      assert u[pos] == '\n';
      PlainRoundTrip(u, pos + 1);
    } else {
      forall i | pos <= i < pos + |ins| ensures u[i] != '\n' {
        assert u[i] == u[pos..pos + |ins|][i - pos] == ins[i - pos];
      }
      PlainStepOver(u, pos, |ins|);
      PlainRoundTrip(u, pos + |ins|);
    }
  }

  /** Deleting at the cursor leaves the cursor standing for the same offset. */
  lemma DeletedCursorStays(t: seq<char>, l: int, c: int)
    requires 0 <= PlainLineColumnToPosition(t, l, c) < |t|
    ensures var pos := PlainLineColumnToPosition(t, l, c);
            PlainLineColumnToPosition(Delete(t, pos, 1), l, c) == pos
  {
    var pos := PlainLineColumnToPosition(t, l, c);
    var u := Delete(t, pos, 1);
    assert u[..pos] == t[..pos];
    LineAtPrefix(t, u, pos);
    PlainColAtPrefix(t, u, pos);
    PlainRoundTrip(u, pos);
  }

  /** The key sequences `processKey` acts on; any other bytes are typed. */
  const CtrlX: seq<char> := [0x18 as char]
  const CtrlB: seq<char> := [0x02 as char]
  const CtrlE: seq<char> := [0x05 as char]
  const TabByte: seq<char> := ['\t']
  const Backspace: seq<char> := [0x7f as char]
  const Up: seq<char> := [ESC, '[', 'A']
  const Down: seq<char> := [ESC, '[', 'B']
  const Right: seq<char> := [ESC, '[', 'C']
  const Left: seq<char> := [ESC, '[', 'D']
  const PgDn: seq<char> := [ESC, '[', '6', '~']
  const PgUp: seq<char> := [ESC, '[', '5', '~']
  const Home: seq<char> := [ESC, '[', '1', '~']
  const End: seq<char> := [ESC, '[', '4', '~']
  const DeleteKey: seq<char> := [ESC, '[', '3', '~']

  predicate IsCommand(cmd: seq<char>) {
    cmd in {CtrlX, CtrlB, CtrlE, Backspace, Up, Down, Right, Left, PgDn, PgUp, Home, End, DeleteKey}
  }

  /** What typing `cmd` inserts: a tab becomes four spaces. */
  function TypedBytes(cmd: seq<char>): (r: seq<char>)
    ensures cmd == TabByte ==> r == Spaces(4)
    ensures cmd != TabByte ==> r == cmd
  {
    if cmd == TabByte then Spaces(4) else cmd
  }

  class Editor {
    var text: seq<char>
    var size: int
    var capacity: int
    /** The cursor, 1-based; it may stand for no offset of the text. */
    var line: int
    var column: int
    var top: int
    var left: int
    var width: int
    var height: int
    var screen: array<char>

    ghost predicate Valid()
      reads this
    {
      size == |text| && NulFree(text) && capacity > size
      && line >= 1 && column >= 1 && top >= 1 && left >= 1 && width >= 1 && height >= 0
      && screen.Length == width * height
    }

    /** `main` and `editor`: the file's contents, or an empty text when the
        file cannot be read, on a `w` by `h` terminal. */
    constructor (contents: Option<seq<char>>, w: int, h: int)
      requires contents.Some? ==> NulFree(contents.value)
      requires w >= 1 && h >= 0
      ensures text == (if contents.Some? then contents.value else [])
      ensures capacity == size + 1 && line == 1 && column == 1 && top == 1 && left == 1
      ensures width == w && height == h
      ensures Valid()
    {
      var t := if contents.Some? then contents.value else [];
      text := t;
      size := |t|;
      capacity := |t| + 1;
      line, column := 1, 1;
      top, left := 1, 1;
      width, height := w, h;
      screen := new char[w * h](_ => ' ');
    }

    /** `insertChars`: splice `chars` in at `pos`, doubling what is needed
        when the text and its terminator no longer fit. */
    method InsertChars(chars: seq<char>, pos: int)
      requires Valid() && 0 <= pos <= size && NulFree(chars)
      modifies this`text, this`size, this`capacity
      ensures text == Insert(old(text), pos, chars)
      ensures capacity == (if old(size) + |chars| + 1 > old(capacity) then 2 * (old(size) + |chars| + 1) else old(capacity))
      ensures Valid()
    {
      var cap := size + |chars| + 1;
      if cap > capacity {
        capacity := cap * 2;
      }
      text := Insert(text, pos, chars);
      size := size + |chars|;
    }

    /** `deleteChars`: remove `[pos, pos + len)`. */
    method DeleteChars(pos: int, len: int)
      requires Valid() && 0 <= pos && 0 <= len && pos + len <= size
      modifies this`text, this`size
      ensures text == Delete(old(text), pos, len)
      ensures Valid()
    {
      text := Delete(text, pos, len);
      size := size - len;
    }

    /** `positionToLineColumn`: walk to `pos` (or the end of the text),
        counting lines and characters since the last newline. */
    method PositionToLineColumn(pos: int) returns (ln: int, col: int)
      requires Valid() && pos >= 0
      ensures var e := if pos < size then pos else size;
              ln == LineAt(text, e) && col == PlainColAt(text, e)
    {
      var p := 0;
      ln, col := 1, 1;
      while p < size && p < pos
        invariant 0 <= p <= size && (p <= pos || p == 0)
        invariant ln == LineAt(text, p) && col == PlainColAt(text, p)
      {
        if text[p] == '\n' {
          ln := ln + 1;
          col := 1;
        } else {
          col := col + 1;
        }
        p := p + 1;
      }
    }

    /** `lineColumnToPosition`: walk the text while the coordinates are
        before (`l`, `c`); the offset reached if they are then equal, else -1. */
    method LineColumnToPosition(l: int, c: int) returns (pos: int)
      requires Valid()
      ensures pos == PlainLineColumnToPosition(text, l, c)
    {
      var t := text;
      var p, ln, col := 0, 1, 1;
      while p < |t| && (ln < l || (ln == l && col < c))
        invariant 0 <= p <= |t| && ln == LineAt(t, p) && col == PlainColAt(t, p)
        invariant PlainWalk(t, p, ln, col, l, c) == PlainWalk(t, 0, 1, 1, l, c)
        decreases |t| - p
      {
        if t[p] == '\n' {
          ln := ln + 1;
          col := 1;
        } else {
          col := col + 1;
        }
        p := p + 1;
      }
      if ln == l && col == c {
        pos := p;
      } else {
        pos := -1;
      }
    }

    /** The offset the cursor stands for, or -1. */
    ghost function CursorOffset(): int
      reads this`text, this`line, this`column
    {
      PlainLineColumnToPosition(text, line, column)
    }

    /** The Delete key happened: the character at the cursor is gone when
        the cursor stands for one, and the cursor stays. */
    twostate predicate DeletedAtCursor(changed: bool)
      reads this`text, this`line, this`column
    {
      var pos := old(CursorOffset());
      (changed <==> 0 <= pos < |old(text)|)
      && (changed ==> 0 <= pos < |old(text)| && text == Delete(old(text), pos, 1))
      && (!changed ==> text == old(text))
      && line == old(line) && column == old(column)
    }

    /** Typing `cmd` happened (the fall-through of `processKey`): when the
        cursor stands for an offset, its bytes (a tab as four spaces) are
        inserted there and the cursor moves on by their count, or to the
        next line for a newline. */
    twostate predicate Typed(cmd: seq<char>, changed: bool)
      reads this`text, this`capacity, this`line, this`column
    {
      var pos := old(CursorOffset());
      var ins := TypedBytes(cmd);
      (changed <==> pos >= 0)
      && (changed ==> 0 <= pos <= |old(text)| && text == Insert(old(text), pos, ins)
                      && capacity == (if |old(text)| + |ins| + 1 > old(capacity)
                                      then 2 * (|old(text)| + |ins| + 1) else old(capacity))
                      && if cmd == ['\n'] then line == old(line) + 1 && column == 1
                         else line == old(line) && column == old(column) + |ins|)
      && (!changed ==> text == old(text) && capacity == old(capacity)
                       && line == old(line) && column == old(column))
    }

    /** ^B (`b` is 0x02), ^E (0x05) or Backspace (0x7f) happened: ^B goes
        to line 1, column 1, ^E to the end of the text, and Backspace removes
        the character before the offset the cursor stands for, if any, and
        puts the cursor there. */
    twostate predicate ControlDone(b: char, redraw: bool)
      reads this`text, this`line, this`column
    {
      if b == 0x02 as char then
        text == old(text) && line == 1 && column == 1 && (redraw <==> old(line) > 1 || old(column) > 1)
      else if b == 0x05 as char then
        redraw && text == old(text) && line == LineAt(text, |text|) && column == PlainColAt(text, |text|)
      else
        b == 0x7f as char ==>
          var pos := old(CursorOffset());
          (redraw <==> pos > 0)
          && (redraw ==> 0 < pos <= |old(text)| && text == Delete(old(text), pos - 1, 1)
                         && line == LineAt(text, pos - 1) && column == PlainColAt(text, pos - 1))
          && (!redraw ==> text == old(text) && line == old(line) && column == old(column))
    }

    /** An arrow key happened: the text stays and the cursor moves one line
        or column, except that it stops at line 1 and column 1. */
    twostate predicate ArrowDone(cmd: seq<char>, redraw: bool)
      reads this`text, this`line, this`column
    {
      text == old(text)
      && (cmd == Up ==> (redraw <==> old(line) > 1) && column == old(column)
                        && line == (if redraw then old(line) - 1 else old(line)))
      && (cmd == Down ==> redraw && line == old(line) + 1 && column == old(column))
      && (cmd == Right ==> redraw && line == old(line) && column == old(column) + 1)
      && (cmd == Left ==> (redraw <==> old(column) > 1) && line == old(line)
                          && column == (if redraw then old(column) - 1 else old(column)))
    }

    /** PgDn, PgUp, Home or End happened: the text stays; the cursor moves a
        screen down or up (not above line 1), to column 1, or to the end of
        its line when it is on a line of the text. */
    twostate predicate PageDone(cmd: seq<char>, redraw: bool)
      reads this`text, this`line, this`column
    {
      text == old(text)
      && (cmd == PgDn ==> redraw && line == old(line) + old(height) && column == old(column))
      && (cmd == PgUp ==> (redraw <==> old(line) > 1) && column == old(column)
                          && line == (if old(line) - old(height) < 1 then 1 else old(line) - old(height)))
      && (cmd == Home ==> (redraw <==> old(column) > 1) && line == old(line) && column == 1)
      && (cmd == End ==>
            var pos := PlainLineColumnToPosition(text, old(line), 1);
            (redraw <==> pos >= 0)
            && (redraw ==> var e := FindChar(text, pos, '\n');
                           (e == |text| || text[e] == '\n')
                           && line == old(line) == LineAt(text, e) && column == PlainColAt(text, e))
            && (!redraw ==> line == old(line) && column == old(column)))
    }

    /** The branch of `processKey` for the read `cmd` (not ^X) happened. */
    twostate predicate KeyDone(cmd: seq<char>, redraw: bool)
      reads this`text, this`capacity, this`line, this`column
    {
      if cmd == CtrlB || cmd == CtrlE || cmd == Backspace then ControlDone(cmd[0], redraw)
      else if cmd == Up || cmd == Down || cmd == Right || cmd == Left then ArrowDone(cmd, redraw)
      else if cmd == PgDn || cmd == PgUp || cmd == Home || cmd == End then PageDone(cmd, redraw)
      else if cmd == DeleteKey then DeletedAtCursor(redraw)
      else Typed(cmd, redraw)
    }

    /** ^B, ^E and Backspace. */
    method ControlKey(b: char) returns (redraw: bool)
      requires Valid() && (b == 0x02 as char || b == 0x05 as char || b == 0x7f as char)
      modifies this`text, this`size, this`line, this`column
      ensures Valid() && ControlDone(b, redraw)
    {
      redraw := true;
      if b == 0x02 as char {
        if line > 1 || column > 1 {
          line, column := 1, 1;
        } else {
          redraw := false;
        }
      } else if b == 0x05 as char {
        line, column := PositionToLineColumn(size);
      } else {
        var pos := LineColumnToPosition(line, column);
        if pos > 0 {
          pos := pos - 1;
          DeleteChars(pos, 1);
          line, column := PositionToLineColumn(pos);
        } else {
          redraw := false;
        }
      }
    }

    /** The arrow keys: the cursor moves without looking at the text. */
    method ArrowKey(cmd: seq<char>) returns (redraw: bool)
      requires Valid() && (cmd == Up || cmd == Down || cmd == Right || cmd == Left)
      modifies this`line, this`column
      ensures Valid() && ArrowDone(cmd, redraw)
    {
      redraw := true;
      if cmd == Up {
        if line > 1 {
          line := line - 1;
        } else {
          redraw := false;
        }
      } else if cmd == Down {
        line := line + 1;
      } else if cmd == Right {
        column := column + 1;
      } else {
        if column > 1 {
          column := column - 1;
        } else {
          redraw := false;
        }
      }
    }

    /** PgDn, PgUp, Home and End. */
    method PageKey(cmd: seq<char>) returns (redraw: bool)
      requires Valid() && (cmd == PgDn || cmd == PgUp || cmd == Home || cmd == End)
      modifies this`line, this`column
      ensures Valid() && PageDone(cmd, redraw)
    {
      redraw := true;
      if cmd == PgDn {
        line := line + height;
      } else if cmd == PgUp {
        if line > 1 {
          line := line - height;
          if line < 1 {
            line := 1;
          }
        } else {
          redraw := false;
        }
      } else if cmd == Home {
        if column > 1 {
          column := 1;
        } else {
          redraw := false;
        }
      } else {
        var pos := LineColumnToPosition(line, 1);
        if pos >= 0 {
          var e := FindChar(text, pos, '\n');
          LineAtSameLine(text, pos, e);
          line, column := PositionToLineColumn(e);
        } else {
          redraw := false;
        }
      }
    }

    /** The Delete key, with the guard the deletion needs: only a cursor
        standing on a character deletes (see `DeleteAtEndAsWritten` for
        the guard as written). */
    method DeleteKeyPressed() returns (redraw: bool)
      requires Valid()
      modifies this`text, this`size
      ensures Valid() && DeletedAtCursor(redraw)
    {
      var pos := LineColumnToPosition(line, column);
      if 0 <= pos < size {
        DeleteChars(pos, 1);
        redraw := true;
      } else {
        redraw := false;
      }
    }

    /** Typing: insert the bytes of `cmd` (a tab as four spaces) at the cursor. */
    method TypeKey(cmd: seq<char>) returns (redraw: bool)
      requires Valid() && NulFree(cmd)
      modifies this`text, this`size, this`capacity, this`line, this`column
      ensures Valid() && Typed(cmd, redraw)
    {
      var ins := if cmd == TabByte then Spaces(4) else cmd;
      var pos := LineColumnToPosition(line, column);
      if pos >= 0 {
        InsertChars(ins, pos);
        if cmd == ['\n'] {
          line, column := line + 1, 1;
        } else {
          column := column + |ins|;
        }
        redraw := true;
      } else {
        redraw := false;
      }
    }

    /** What `processKey` does to the text and the cursor for one read of
        the terminal, `cmd`, other than ^X: the commands above act and any
        other bytes are typed; the result says whether to redraw. */
    method KeyEffect(cmd: seq<char>) returns (redraw: bool)
      requires Valid() && |cmd| >= 1 && NulFree(cmd) && cmd != CtrlX
      modifies this`text, this`size, this`capacity, this`line, this`column
      ensures Valid() && KeyDone(cmd, redraw)
      ensures IsCommand(cmd) ==> capacity == old(capacity)
      ensures !redraw ==> text == old(text) && line == old(line) && column == old(column)
    {
      if cmd == CtrlB || cmd == CtrlE || cmd == Backspace {
        redraw := ControlKey(cmd[0]);
      } else if cmd == Up || cmd == Down || cmd == Right || cmd == Left {
        redraw := ArrowKey(cmd);
      } else if cmd == PgDn || cmd == PgUp || cmd == Home || cmd == End {
        redraw := PageKey(cmd);
      } else if cmd == DeleteKey {
        redraw := DeleteKeyPressed();
      } else {
        redraw := TypeKey(cmd);
      }
    }

    /** `processKey`: ^X stops the editor; anything else takes effect and
        the screen is recomposed whenever something moved or changed. */
    method ProcessKey(cmd: seq<char>) returns (running: bool, redrawn: bool)
      requires Valid() && |cmd| >= 1 && NulFree(cmd)
      modifies this`text, this`size, this`capacity, this`line, this`column, this`top, this`left, screen
      ensures Valid() && width == old(width) && height == old(height)
      ensures running <==> cmd != CtrlX
      ensures cmd == CtrlX ==> !redrawn
      ensures cmd != CtrlX ==> KeyDone(cmd, redrawn)
      ensures !redrawn ==> text == old(text) && line == old(line) && column == old(column)
      ensures redrawn ==> top == ClampOrigin(old(top), line, height) && left == ClampOrigin(old(left), column, width)
                          && screen[..] == PlainGrid(text, top, left, width, height)
      ensures !redrawn ==> top == old(top) && left == old(left) && screen[..] == old(screen[..])
    {
      if cmd == CtrlX {
        return false, false;
      }
      running := true;
      redrawn := KeyEffect(cmd);
      if redrawn {
        RedrawScreen();
      }
    }

    /** `editor`'s loop: draw the screen, then hand each read of the
        terminal to `processKey` until it answers that the editor stops.
        The result is how many reads were handled before ^X, or all of them. */
    method Edit(input: seq<seq<char>>) returns (n: nat)
      requires Valid()
      requires forall i :: 0 <= i < |input| ==> |input[i]| >= 1 && NulFree(input[i])
      modifies this`text, this`size, this`capacity, this`line, this`column, this`top, this`left, screen
      ensures Valid() && n <= |input|
      ensures forall i :: 0 <= i < n ==> input[i] != CtrlX
      ensures n == |input| || input[n] == CtrlX
      ensures width == old(width) && height == old(height)
      ensures screen[..] == PlainGrid(text, top, left, width, height)
    {
      RedrawScreen();
      n := 0;
      while n < |input|
        invariant n <= |input| && Valid() && screen == old(screen)
        invariant width == old(width) && height == old(height)
        invariant forall i :: 0 <= i < n ==> input[i] != CtrlX
        invariant screen[..] == PlainGrid(text, top, left, width, height)
      {
        var running, _ := ProcessKey(input[n]);
        if !running {
          return;
        }
        n := n + 1;
      }
    }

    /** The grid of `redrawScreen`: `height` rows from line `top`. */
    method FillGrid()
      requires top >= 1 && left >= 1 && width >= 1 && height >= 0
      requires screen.Length == width * height
      modifies screen
      ensures screen[..] == PlainGrid(text, top, left, width, height)
    {
      FillRows(text, top, left, width, height, screen);
    }

    /** `redrawScreen` without the terminal writes: scroll so the cursor is
        in view, then compose the grid. */
    method RedrawScreen()
      requires Valid()
      modifies this`top, this`left, screen
      ensures top == ClampOrigin(old(top), line, height)
      ensures left == ClampOrigin(old(left), column, width)
      ensures screen[..] == PlainGrid(text, top, left, width, height)
      ensures Valid()
    {
      if line < top {
        top := line;
      } else if line >= top + height {
        top := line - height + 1;
      }
      if column < left {
        left := column;
      } else if column >= left + width {
        left := column - width + 1;
      }
      FillGrid();
    }
  }

  /** The copying half of a `redrawScreen` row: `width` cells from `p0`,
      the characters up to the line's end `e`, then spaces. */
  method CopyCells(t: seq<char>, p0: int, ghost e: int, width: int, screen: array<char>, q0: int)
    returns (p: int)
    requires 0 <= p0 <= e <= |t| && (e == |t| || t[e] == '\n')
    requires forall k :: p0 <= k < e ==> t[k] != '\n'
    requires width >= 1 && 0 <= q0 && q0 + width <= screen.Length
    modifies screen
    ensures p == Min(p0 + width, e)
    ensures forall k :: 0 <= k < q0 ==> screen[k] == old(screen[k])
    ensures forall k :: q0 <= k < q0 + width ==> screen[k] == if p0 + k - q0 < e then t[p0 + k - q0] else ' '
  {
    p := p0;
    var q := q0;
    var i := 1;
    while i <= width
      invariant 1 <= i <= width + 1 && p == Min(p0 + i - 1, e) && q == q0 + i - 1
      invariant forall k :: 0 <= k < q0 ==> screen[k] == old(screen[k])
      invariant forall k :: q0 <= k < q ==> screen[k] == if p0 + k - q0 < e then t[p0 + k - q0] else ' '
    {
      if p < |t| && t[p] != '\n' {
        screen[q] := t[p];
        p := p + 1;
      } else {
        screen[q] := ' ';
      }
      q := q + 1;
      i := i + 1;
    }
  }

  /** One row of `redrawScreen`: skip `lf - 1` characters of line `n` of
      `t`, which starts at `p0`, copy `width` cells, padding with spaces,
      then step past the line's newline. */
  method ComposeRow(t: seq<char>, p0: nat, ghost n: int, lf: int, width: int,
                    screen: array<char>, q0: int) returns (p: int)
    requires n >= 1 && p0 == FindLine(t, n)
    requires lf >= 1 && width >= 1 && 0 <= q0 && q0 + width <= screen.Length
    modifies screen
    ensures screen[..q0] == old(screen[..q0])
    ensures screen[q0..q0 + width] == PlainRow(t, n, lf, width)
    ensures p == FindLine(t, n + 1)
  {
    ghost var e := FindChar(t, p0, '\n');
    ghost var line := LineText(t, n);
    assert line == t[p0..e] && |line| == e - p0;
    var s := SkipColumns(t, p0, e, lf);
    p := CopyCells(t, s, e, width, screen, q0);
    assert screen[..q0] == old(screen[..q0]);
    ghost var row := PlainRow(t, n, lf, width);
    forall k | 0 <= k < width
      ensures screen[q0 + k] == row[k]
    {
      PlainRowCell(t, n, lf, width, k);
      if lf - 1 + k < |line| {
        assert s + k == p0 + lf - 1 + k < e;
        assert line[lf - 1 + k] == t[s + k];
      } else {
        assert s + k >= e;
      }
    }
    assert screen[q0..q0 + width] == row;
    p := StepPastLine(t, p0, p);
    FindLineNext(t, n);
  }

  /** The row loop of `redrawScreen`: `h` rows of `t` from line `tp`, each
      `w` cells wide from column `lf`, filling `screen`. */
  method FillRows(t: seq<char>, tp: int, lf: int, w: int, h: int, screen: array<char>)
    requires tp >= 1 && lf >= 1 && w >= 1 && h >= 0
    requires screen.Length == w * h
    modifies screen
    ensures screen[..] == PlainGrid(t, tp, lf, w, h)
  {
    var p := FindLine(t, tp);
    var q := 0;
    var j := 1;
    while j <= h
      invariant 1 <= j <= h + 1
      invariant p == FindLine(t, tp + j - 1)
      invariant q == w * (j - 1) && q <= screen.Length
      invariant screen[..q] == PlainGrid(t, tp, lf, w, j - 1)
    {
      RowFits(j - 1, w, h - 1);
      ghost var g := screen[..q];
      p := ComposeRow(t, p, tp + j - 1, lf, w, screen, q);
      PlainGridSnoc(t, tp, lf, w, j - 1);
      GridExtend(screen[..], q, w, g, PlainRow(t, tp + j - 1, lf, w));
      q := q + w;
      j := j + 1;
    }
    assert screen[..] == screen[..q];
  }

  /** The skipping half of a `redrawScreen` row: step over `left - 1`
      characters of the line from `p0`, stopping at its end `e`. */
  method SkipColumns(t: seq<char>, p0: int, ghost e: int, left: int) returns (p: int)
    requires 0 <= p0 <= e <= |t| && (e == |t| || t[e] == '\n')
    requires forall k :: p0 <= k < e ==> t[k] != '\n'
    requires left >= 1
    ensures p == Min(p0 + left - 1, e)
  {
    p := p0;
    var i := left;
    while i > 1
      invariant 1 <= i <= left && p == Min(p0 + left - i, e)
    {
      if p < |t| && t[p] != '\n' {
        p := p + 1;
      } else {
        break;
      }
      i := i - 1;
    }
  }
}
