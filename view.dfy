/** The viewport of both editors: the scroll clamp and the composed character
    grid (eve.cpp:679-731, editor.c:228-269), as reference definitions. */
module View {
  import opened Chars
  import opened Scan
  import opened Columns

  /** The scroll clamp applied to `top` (against `line` and `height`) and to
      `left` (against `column` and `width`). */
  function ClampOrigin(origin: int, cursor: int, extent: int): (r: int)
    ensures extent >= 1 ==> r <= cursor < r + extent
    ensures origin <= cursor < origin + extent ==> r == origin
    ensures origin >= 1 && cursor >= 1 && extent >= 0 ==> r >= 1
    ensures cursor < origin ==> r == cursor
    ensures extent >= 1 && cursor >= origin + extent ==> r == cursor - extent + 1
  {
    if cursor < origin then cursor
    else if cursor >= origin + extent then cursor - extent + 1
    else origin
  }

  /** The display of a line's characters starting at column `col`: each tab
      becomes spaces up to the next tab stop. */
  function Expand(s: seq<char>, col: int): (r: seq<char>)
    requires col >= 1
  {
    if s == [] then []
    else if s[0] == '\t' then Spaces(NextTab(col) - col) + Expand(s[1..], NextTab(col))
    else [s[0]] + Expand(s[1..], col + 1)
  }

  /** A tab at the last column before its tab stop shows one space and is used up. */
  lemma ExpandTabLast(s: seq<char>, col: int)
    requires s != [] && s[0] == '\t' && col >= 1 && col + 1 == NextTab(col)
    ensures Expand(s, col) == [' '] + Expand(s[1..], col + 1)
  {
    assert Spaces(1) == [' '];
  }

  /** A tab short of its tab stop shows one space and is still pending. */
  lemma ExpandTabInside(s: seq<char>, col: int)
    requires s != [] && s[0] == '\t' && col >= 1 && col + 1 < NextTab(col)
    ensures Expand(s, col) == [' '] + Expand(s, col + 1)
  {
    NextTabWithinStop(col, col + 1);
    ExpandTabShift(s, col, NextTab(col));
  }

  lemma ExpandTabShift(s: seq<char>, col: int, n: int)
    requires s != [] && s[0] == '\t' && col >= 1 && col + 1 < n
    requires n == NextTab(col) == NextTab(col + 1)
    ensures Expand(s, col) == [' '] + Expand(s, col + 1)
  {
    var rest := Expand(s[1..], n);
    assert Expand(s, col) == Spaces(n - col) + rest;
    assert Expand(s, col + 1) == Spaces(n - col - 1) + rest;
    SpacesCons(n - col);
  }

  lemma SpacesCons(k: nat)
    requires k >= 1
    ensures Spaces(k) == [' '] + Spaces(k - 1)
  {
  }

  /** One column of the display: a tab shows a space and is used up at the
      last column before its tab stop; any other character shows itself. */
  lemma ExpandStep(s: seq<char>, col: int)
    requires s != [] && col >= 1
    ensures s[0] != '\t' ==> Expand(s, col) == [s[0]] + Expand(s[1..], col + 1)
    ensures s[0] == '\t' && col + 1 == NextTab(col) ==> Expand(s, col) == [' '] + Expand(s[1..], col + 1)
    ensures s[0] == '\t' && col + 1 != NextTab(col) ==> Expand(s, col) == [' '] + Expand(s, col + 1)
  {
    if s[0] == '\t' {
      if col + 1 == NextTab(col) {
        ExpandTabLast(s, col);
      } else {
        ExpandTabInside(s, col);
      }
    }
  }

  /** `s` cut or padded with spaces to exactly `n` characters. */
  function Pad(s: seq<char>, n: nat): (r: seq<char>)
    ensures |r| == n
    ensures forall i :: 0 <= i < n ==> r[i] == if i < |s| then s[i] else ' '
  {
    if |s| >= n then s[..n] else s + Spaces(n - |s|)
  }

  /** Columns `left .. left + width - 1` of a displayed line, space padded. */
  function Window(s: seq<char>, left: int, width: nat): (r: seq<char>)
    requires left >= 1
    ensures |r| == width
    ensures forall i :: 0 <= i < width ==> r[i] == if left - 1 + i < |s| then s[left - 1 + i] else ' '
  {
    Pad(s, left - 1 + width)[left - 1..]
  }

  /** The characters of line `n` (1-based), without its newline; empty past the last line. */
  function LineText(t: seq<char>, n: int): (r: seq<char>)
    ensures forall i :: 0 <= i < |r| ==> r[i] != '\n'
  {
    var s := FindLine(t, n);
    t[s..FindChar(t, s, '\n')]
  }

  /** One screen row of eve: the window over line `n` with tabs expanded. */
  function EveRow(t: seq<char>, n: int, left: int, width: nat): (r: seq<char>)
    requires left >= 1
    ensures |r| == width
  {
    Window(Expand(LineText(t, n), 1), left, width)
  }

  /** eve's text area: rows for lines `top .. top + height - 1`, row after row. */
  function EveGrid(t: seq<char>, top: int, left: int, width: nat, height: nat): (r: seq<char>)
    requires left >= 1
  {
    Flatten(seq(height, j => EveRow(t, top + j, left, width)))
  }

  /** One screen row of editor.c: the window over line `n`, characters as they are. */
  function PlainRow(t: seq<char>, n: int, left: int, width: nat): (r: seq<char>)
    requires left >= 1
    ensures |r| == width
  {
    Window(LineText(t, n), left, width)
  }

  /** editor.c's screen: rows for lines `top .. top + height - 1`. */
  function PlainGrid(t: seq<char>, top: int, left: int, width: nat, height: nat): (r: seq<char>)
    requires left >= 1
  {
    Flatten(seq(height, j => PlainRow(t, top + j, left, width)))
  }

  /** Rows laid out one after another, as in the screen buffer. */
  function Flatten(rows: seq<seq<char>>): seq<char>
  {
    if rows == [] then [] else Flatten(rows[..|rows| - 1]) + rows[|rows| - 1]
  }

  lemma FlattenSnoc(rows: seq<seq<char>>, row: seq<char>)
    ensures Flatten(rows + [row]) == Flatten(rows) + row
  {
    assert (rows + [row])[..|rows|] == rows;
  }

  predicate RowsOfWidth(rows: seq<seq<char>>, width: nat) {
    forall j :: 0 <= j < |rows| ==> |rows[j]| == width
  }

  /** A grid of `height` rows of `width` cells holds `width * height` cells,
      and its cell in row `j`, column `i` (0-based) is that row's column `i`. */
  lemma {:induction false} FlattenCells(rows: seq<seq<char>>, width: nat, j: nat, i: nat)
    requires RowsOfWidth(rows, width) && j < |rows| && i < width
    ensures |Flatten(rows)| == width * |rows|
    ensures j * width + i < width * |rows|
    ensures Flatten(rows)[j * width + i] == rows[j][i]
  {
    var h := |rows|;
    var init := rows[..h - 1];
    FlattenLength(init, width);
    FlattenLength(rows, width);
    ShiftRow(j, i, width, h);
    if j < h - 1 {
      FlattenCells(init, width, j, i);
      assert rows[j] == init[j];
    } else {
      assert j * width + i == width * (h - 1) + i;
    }
  }

  lemma {:induction false} FlattenLength(rows: seq<seq<char>>, width: nat)
    requires RowsOfWidth(rows, width)
    ensures |Flatten(rows)| == width * |rows|
  {
    if rows != [] {
      FlattenLength(rows[..|rows| - 1], width);
      assert width * |rows| == width * (|rows| - 1) + width;
    }
  }

  /** The index arithmetic of a row-major grid. */
  lemma ShiftRow(j: nat, i: nat, width: nat, height: nat)
    requires j < height && i < width
    ensures j * width + i < width * height
    ensures width * height == width * (height - 1) + width
  {
    assert width * height == width * (height - 1) + width;
    assert j * width <= (height - 1) * width;
  }

  /** Row `j` (0-based) of a `height`-row grid and the status row after it
      fit in `width * (height + 1)` cells. */
  lemma RowFits(j: nat, width: nat, height: nat)
    requires j <= height
    ensures width * j + width <= width * (height + 1)
    ensures width * (height + 1) == width * height + width
    ensures width * (j + 1) == width * j + width
    ensures 0 <= width * j <= width * height
  {
    assert width * (height + 1) == width * height + width;
    assert width * (j + 1) == width * j + width;
    assert width * j <= width * height;
  }

  /** A screen whose first `q` cells are `g` and whose next `w` are `row`
      starts with `g + row`. */
  lemma GridExtend(a: seq<char>, q: nat, w: nat, g: seq<char>, row: seq<char>)
    requires q + w <= |a| && a[..q] == g && a[q..q + w] == row
    ensures a[..q + w] == g + row
  {
    assert a[..q + w] == a[..q] + a[q..q + w];
  }

  /** eve's grid grows one row at a time: the grid of `n + 1` rows is the
      grid of `n` rows followed by row `n`. */
  lemma EveGridSnoc(t: seq<char>, top: int, left: int, width: nat, n: nat)
    requires left >= 1
    ensures EveGrid(t, top, left, width, n + 1) == EveGrid(t, top, left, width, n) + EveRow(t, top + n, left, width)
    ensures |EveGrid(t, top, left, width, n + 1)| == |EveGrid(t, top, left, width, n)| + width
  {
    var rows := seq(n + 1, k => EveRow(t, top + k, left, width));
    assert rows[..n] == seq(n, k => EveRow(t, top + k, left, width));
  }

  /** editor.c's grid grows one row at a time, as eve's does. */
  lemma PlainGridSnoc(t: seq<char>, top: int, left: int, width: nat, n: nat)
    requires left >= 1
    ensures PlainGrid(t, top, left, width, n + 1) == PlainGrid(t, top, left, width, n) + PlainRow(t, top + n, left, width)
    ensures |PlainGrid(t, top, left, width, n + 1)| == |PlainGrid(t, top, left, width, n)| + width
  {
    var rows := seq(n + 1, k => PlainRow(t, top + k, left, width));
    assert rows[..n] == seq(n, k => PlainRow(t, top + k, left, width));
  }

  /** eve's grid holds `width * height` cells; row `j` shows line `top + j`. */
  lemma EveGridCell(t: seq<char>, top: int, left: int, width: nat, height: nat, j: nat, i: nat)
    requires left >= 1 && j < height && i < width
    ensures |EveGrid(t, top, left, width, height)| == width * height
    ensures j * width + i < width * height
    ensures EveGrid(t, top, left, width, height)[j * width + i] == EveRow(t, top + j, left, width)[i]
  {
    var rows := seq(height, k => EveRow(t, top + k, left, width));
    assert RowsOfWidth(rows, width) by {
      forall k | 0 <= k < height ensures |rows[k]| == width {
        assert rows[k] == EveRow(t, top + k, left, width);
      }
    }
    FlattenCells(rows, width, j, i);
  }

  /** editor.c's grid holds `width * height` cells; row `j` shows line `top + j`. */
  lemma PlainGridCell(t: seq<char>, top: int, left: int, width: nat, height: nat, j: nat, i: nat)
    requires left >= 1 && j < height && i < width
    ensures |PlainGrid(t, top, left, width, height)| == width * height
    ensures j * width + i < width * height
    ensures PlainGrid(t, top, left, width, height)[j * width + i] == PlainRow(t, top + j, left, width)[i]
  {
    var rows := seq(height, k => PlainRow(t, top + k, left, width));
    assert RowsOfWidth(rows, width) by {
      forall k | 0 <= k < height ensures |rows[k]| == width {
        assert rows[k] == PlainRow(t, top + k, left, width);
      }
    }
    FlattenCells(rows, width, j, i);
  }

  /** editor.c row `j` in plain terms: column `left + i` of line `top + j`,
      or a space past the line's end or past the end of the text. */
  lemma PlainRowCell(t: seq<char>, n: int, left: int, width: nat, i: nat)
    requires left >= 1 && i < width
    ensures var line := LineText(t, n);
            PlainRow(t, n, left, width)[i] == if left - 1 + i < |line| then line[left - 1 + i] else ' '
  {
  }

  /** A line that does not exist shows as a blank row. */
  lemma RowPastLastLine(t: seq<char>, n: int, left: int, width: nat)
    requires left >= 1 && n > LineAt(t, |t|)
    ensures PlainRow(t, n, left, width) == Spaces(width)
    ensures EveRow(t, n, left, width) == Spaces(width)
  {
    FindLinePastEnd(t, n);
    assert LineText(t, n) == [];
  }

  /** A line's display without tabs is the line itself. */
  lemma {:induction false} ExpandNoTabs(s: seq<char>, col: int)
    requires col >= 1 && forall i :: 0 <= i < |s| ==> s[i] != '\t'
    ensures Expand(s, col) == s
    decreases |s|
  {
    if s != [] {
      ExpandNoTabs(s[1..], col + 1);
    }
  }

  /** Displaying a line starting at column `col` ends at the column that
      `ColAt` assigns after its last character. */
  lemma {:induction false} ExpandLength(s: seq<char>, col: int)
    requires col >= 1
    ensures |Expand(s, col)| == ExpandEnd(s, col) - col
    decreases |s|
  {
    if s != [] {
      ExpandLength(s[1..], Advance(col, s[0]));
    }
  }

  /** The column after displaying `s` from column `col`. */
  function ExpandEnd(s: seq<char>, col: int): (r: int)
    requires col >= 1
    ensures r >= col
    decreases |s|
  {
    if s == [] then col else ExpandEnd(s[1..], Advance(col, s[0]))
  }

  /** The digits of a natural number, most significant first. */
  function Digits(n: nat): (r: seq<char>)
    ensures |r| >= 1 && forall i :: 0 <= i < |r| ==> IsDigit(r[i])
  {
    if n < 10 then [('0' as int + n) as char] else Digits(n / 10) + [('0' as int + n % 10) as char]
  }

  /** The value of a string of decimal digits. */
  function DigitsValue(s: seq<char>): int
  {
    if s == [] then 0 else DigitsValue(s[..|s| - 1]) * 10 + (s[|s| - 1] as int - '0' as int)
  }

  /** Decimal printing round-trips through reading the digits back. */
  lemma {:induction false} DigitsRoundTrip(n: nat)
    ensures DigitsValue(Digits(n)) == n
  {
    if n >= 10 {
      DigitsRoundTrip(n / 10);
      var d := Digits(n / 10) + [('0' as int + n % 10) as char];
      assert d[..|d| - 1] == Digits(n / 10);
    } else {
      var d := [('0' as int + n) as char];
      assert d[..0] == [];
    }
  }

  /** `%d`: an optional minus sign and the digits. */
  function FormatInt(n: int): (r: seq<char>)
    ensures |r| >= 1
  {
    if n < 0 then "-" + Digits(-n) else Digits(n)
  }

  /** The status row below eve's text area: "line, column" right-aligned
      when it fits, otherwise blank. */
  function StatusRow(line: int, column: int, width: nat): (r: seq<char>)
    ensures |r| == width
    ensures var s := FormatInt(line) + ", " + FormatInt(column);
            |s| <= width ==> r[width - |s|..] == s && forall i :: 0 <= i < width - |s| ==> r[i] == ' '
    ensures var s := FormatInt(line) + ", " + FormatInt(column);
            |s| > width ==> r == Spaces(width)
  {
    var s := FormatInt(line) + ", " + FormatInt(column);
    if |s| <= width then Spaces(width - |s|) + s else Spaces(width)
  }
}
