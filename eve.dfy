/** eve's single-document editor (eve.cpp): the text buffer with its
    cursor, selection, clipboard and search pattern, the viewport, the
    screen buffer and the key handling loop, as one object whose methods
    update its fields as the C functions update the file's globals. */
module Eve {
  import opened Chars
  import opened Wrappers
  import opened Scan
  import opened Columns
  import opened Splice
  import opened Trim
  import opened View
  import opened Keys
  import opened EveText

  /** One character of the trimming pass, in terms of `TrimFrom`. */
  lemma TrimStep(s: seq<char>, p: nat, run: seq<char>)
    requires p < |s|
    ensures TrimFrom(s[p..], run) ==
            if IsBlank(s[p]) then TrimFrom(s[p + 1..], run + [s[p]])
            else if s[p] == '\n' then [s[p]] + TrimFrom(s[p + 1..], [])
            else run + [s[p]] + TrimFrom(s[p + 1..], [])
  {
    assert s[p..][1..] == s[p + 1..];
  }

  /** Storing `c` at `q` extends the prefix before `q` by `c`. */
  lemma StoreExtends(b: seq<char>, q: nat, c: char)
    requires q < |b|
    ensures b[q := c][..q + 1] == b[..q] + [c]
  {
  }

  lemma PrefixOfPrefix(b: seq<char>, r: nat, q: nat)
    requires r <= q <= |b|
    ensures b[..r] == b[..q][..r]
  {
  }

  /** The cell `updateScreen` shows in column `i` while at offset `p` of a
      line ending at `e`, and the offset after it: a tab shows a space and
      is used up at the last column before its tab stop, another character
      shows itself, and past the line's end the cell is a space. */
  method NextCell(t: seq<char>, p: nat, ghost e: nat, i: int) returns (c: char, next: nat)
    requires p <= e <= |t| && (e == |t| || t[e] == '\n') && i >= 1
    requires forall k :: p <= k < e ==> t[k] != '\n'
    ensures p <= next <= e
    ensures p == e ==> c == ' ' && next == e
    ensures p < e ==> Expand(t[p..e], i) == [c] + Expand(t[next..e], i + 1)
  {
    next := p;
    if p < |t| && t[p] == '\t' {
      ExpandStep(t[p..e], i);
      assert t[p..e][1..] == t[p + 1..e];
      c := ' ';
      if i == ((i - 1) / TAB_SIZE + 1) * TAB_SIZE {
        next := p + 1;
      }
    } else if p < |t| && t[p] != '\n' {
      ExpandStep(t[p..e], i);
      assert t[p..e][1..] == t[p + 1..e];
      c := t[p];
      next := p + 1;
    } else {
      c := ' ';
    }
  }

  /** The Alt+key codes `processKey` acts on before it looks at the character. */
  predicate IsAltMotion(code: KeyCode) {
    code == KeyDelete || code == KeyBackspace || code == KeyHome || code == KeyEnd
    || code == KeyPgUp || code == KeyPgDn
  }

  /** The key codes `processKey` acts on without a modifier. */
  predicate IsPlainMotion(code: KeyCode) {
    code == KeyBackspace || code == KeyDelete || code == KeyUp || code == KeyDown
    || code == KeyRight || code == KeyLeft || code == KeyHome || code == KeyEnd
    || code == KeyPgUp || code == KeyPgDn
  }

  /** The keys that end the editor: Alt+Q quits and Alt+X saves and quits. */
  predicate IsQuitKey(k: Key) {
    !k.ctrl && k.alt && !IsAltMotion(k.code) && (k.ch == 'q' || k.ch == 'x')
  }

  /** The Alt+letter commands. */
  predicate IsAltCommand(c: char) {
    c == 'q' || c == 's' || c == 'x' || c == 'd' || c == 'c' || c == 'p' || c == 'b' || c == 'm'
    || c == 'f' || c == 'o' || c == 'n'
  }

  /** The keys whose branch of `processKey` assigns the command's result to
      the redraw flag, clearing it when the command did nothing; every other
      branch only ever sets the flag. */
  predicate AssignsFlag(k: Key) {
    !k.ctrl && k.alt
    && (k.code == KeyDelete || k.code == KeyBackspace || (!IsAltMotion(k.code)
                                                          && (k.ch == 'd' || k.ch == 'c' || k.ch == 'p'
                                                              || k.ch == 'o' || k.ch == 'n')))
  }

  /** Whether key `k` asks for a redraw whatever the state, when that is
      fixed: `None` for the keys whose answer depends on the text or the
      cursor. */
  function FixedRedraw(k: Key): Option<bool> {
    if k.ctrl then Some(k.code == KeyRight || k.code == KeyLeft)
    else if k.alt then FixedAltRedraw(k)
    else FixedPlainRedraw(k)
  }

  /** `FixedRedraw` for a key with Alt and without Ctrl. */
  function FixedAltRedraw(k: Key): Option<bool> {
    if k.code == KeyDelete || k.code == KeyBackspace then None
    else if IsAltMotion(k.code) then Some(true)
    else FixedCommandRedraw(k.ch)
  }

  /** The line Up, Down, PgUp or PgDn moves the cursor to from line `l`
      in a text area `h` rows high: one line, or a screen less one line,
      and never above line 1 for PgUp. */
  function LineTarget(k: Key, l: int, h: int): int {
    if k.code == KeyUp then l - 1
    else if k.code == KeyDown then l + 1
    else if k.code == KeyPgUp then AtLeastOne(l - (h - 1))
    else l + h - 1
  }

  /** `FixedRedraw` for a key without Ctrl or Alt. */
  function FixedPlainRedraw(k: Key): Option<bool> {
    if k.code == KeyDown || k.code == KeyHome || k.code == KeyEnd || k.code == KeyPgUp || k.code == KeyPgDn
    then Some(true)
    else if IsPlainMotion(k.code) then None
    else Some(IsTypable(k.ch))
  }

  /** `FixedRedraw` for the Alt+letter command `c`. */
  function FixedCommandRedraw(c: char): Option<bool> {
    if c == 's' || c == 'b' || c == 'f' then Some(true)
    else if c == 'd' || c == 'p' || c == 'o' || c == 'n' then None
    else Some(false)
  }

  /** `processKey`'s redraw flag after the keys `ks`, where key `i`
      answered `us[i]`: an assigning key overwrites the flag, any other key
      can only set it. */
  function Redraw(ks: seq<Key>, us: seq<bool>): bool
    requires |ks| == |us|
  {
    if ks == [] then false
    else
      var n := |ks| - 1;
      if AssignsFlag(ks[n]) then us[n] else Redraw(ks[..n], us[..n]) || us[n]
  }

  /** The flag is raised exactly when some key answered yes and no later
      assigning key answered no. */
  /** Key `i` leaves a set flag set: it does not assign the flag, or it
      answered true. */
  predicate KeepsFlag(ks: seq<Key>, us: seq<bool>, i: int)
    requires 0 <= i < |ks| == |us|
  {
    !AssignsFlag(ks[i]) || us[i]
  }

  lemma {:induction false} RedrawMeans(ks: seq<Key>, us: seq<bool>)
    requires |ks| == |us|
    ensures Redraw(ks, us) <==>
              exists j :: 0 <= j < |us| && us[j] && forall i :: j < i < |us| ==> KeepsFlag(ks, us, i)
  {
    if ks != [] {
      var n := |ks| - 1;
      var ks', us' := ks[..n], us[..n];
      RedrawMeans(ks', us');
      if us[n] {
        assert us[n] && n + 1 == |us|;
      } else if AssignsFlag(ks[n]) {
        forall j | 0 <= j < |us| && us[j]
          ensures !(forall i :: j < i < |us| ==> KeepsFlag(ks, us, i))
        {
          assert j < n && !KeepsFlag(ks, us, n);
        }
      } else {
        if Redraw(ks', us') {
          var j :| 0 <= j < |us'| && us'[j] && forall i :: j < i < |us'| ==> KeepsFlag(ks', us', i);
          RedrawPrefix(ks, us, n, j);
        }
        if exists j :: 0 <= j < |us| && us[j] && forall i :: j < i < |us| ==> KeepsFlag(ks, us, i) {
          var j :| 0 <= j < |us| && us[j] && forall i :: j < i < |us| ==> KeepsFlag(ks, us, i);
          assert j < n;
          RedrawPrefix(ks, us, n, j);
        }
      }
    }
  }

  /** When the last key keeps the flag, the keys after `j` keep it in the
      whole batch exactly when they keep it in the batch without the last key. */
  lemma RedrawPrefix(ks: seq<Key>, us: seq<bool>, n: nat, j: nat)
    requires |ks| == |us| == n + 1 && j < n && KeepsFlag(ks, us, n)
    ensures (forall i :: j < i < n ==> KeepsFlag(ks[..n], us[..n], i))
            <==> (forall i :: j < i < n + 1 ==> KeepsFlag(ks, us, i))
  {
    forall i | j < i < n
      ensures KeepsFlag(ks[..n], us[..n], i) == KeepsFlag(ks, us, i)
    {
      assert ks[..n][i] == ks[i] && us[..n][i] == us[i];
    }
  }

  /** `us` are the answers of the keys `ks`, none of them a quit key, with
      the fixed answers where there are any, and `flag` the redraw flag
      they leave. */
  ghost predicate Answered(ks: seq<Key>, us: seq<bool>, flag: bool) {
    |ks| == |us| && (forall j :: 0 <= j < |ks| ==> !IsQuitKey(ks[j]))
    && (forall j :: 0 <= j < |us| && FixedRedraw(ks[j]).Some? ==> us[j] == FixedRedraw(ks[j]).value)
    && flag == Redraw(ks, us)
  }

  /** One more key that does not quit keeps `Answered`. */
  lemma AnsweredSnoc(ks: seq<Key>, us: seq<bool>, flag: bool, k: Key, u: bool, flag': bool)
    requires Answered(ks, us, flag) && !IsQuitKey(k)
    requires FixedRedraw(k).Some? ==> u == FixedRedraw(k).value
    requires flag' == if AssignsFlag(k) then u else flag || u
    ensures Answered(ks + [k], us + [u], flag')
  {
    assert (ks + [k])[..|ks|] == ks && (us + [u])[..|us|] == us;
  }

  /** A batch of keys answered up to its first quit key, or through to its
      end when it has none. */
  lemma AnsweredBatch(ks: seq<Key>, us: seq<bool>, flag: bool)
    requires |us| <= |ks| && Answered(ks[..|us|], us, flag) && (|us| < |ks| ==> IsQuitKey(ks[|us|]))
    ensures |us| == |ks| <==> forall i :: 0 <= i < |ks| ==> !IsQuitKey(ks[i])
    ensures forall i :: 0 <= i < |us| && FixedRedraw(ks[i]).Some? ==> us[i] == FixedRedraw(ks[i]).value
  {
    assert forall i :: 0 <= i < |us| ==> ks[..|us|][i] == ks[i];
  }

  /** Down then Alt+C: Down always asks for a redraw and the copy always
      answers no, so the copy clears the flag Down raised. */
  lemma RedrawOverwritten()
    ensures var down, copy := NoKey.(code := KeyDown), NoKey.(ch := 'c', alt := true);
      FixedRedraw(down) == Some(true) && FixedRedraw(copy) == Some(false)
      && !Redraw([down, copy], [true, false])
  {
    var down, copy := NoKey.(code := KeyDown), NoKey.(ch := 'c', alt := true);
    assert [down, copy][..1] == [down] && [true, false][..1] == [true];
  }

  /** Line `l` clamped to the first line, as the page-up commands do. */
  /** The first loop of `lineColumnToPosition`: count newlines from the
      start of the text until line `l` begins or the text ends. */
  method WalkToLine(t: seq<char>, l: int) returns (p: nat, ln: int)
    ensures p == FindLine(t, l) && ln == LineAt(t, p)
  {
    p, ln := 0, 1;
    while p < |t| && ln < l
      invariant p <= |t|
      invariant ln == LineAt(t, p)
      invariant FindLineFrom(t, p, l - ln + 1) == FindLine(t, l)
    {
      if t[p] == '\n' {
        ln := ln + 1;
      }
      p := p + 1;
    }
  }

  /** The second loop of `lineColumnToPosition`: from the line start `s`,
      step right, expanding tabs, until the line ends or the column reaches
      `pc`. */
  method WalkColumns(t: seq<char>, s: nat, pc: int) returns (p: nat, col: int)
    requires s <= |t|
    ensures (p, col) == ColumnWalk(t, s, 1, pc)
  {
    p, col := s, 1;
    while p < |t| && t[p] != '\n' && col < pc
      invariant s <= p <= |t| && col >= 1
      invariant ColumnWalk(t, p, col, pc) == ColumnWalk(t, s, 1, pc)
    {
      if t[p] == '\t' {
        col := ((col - 1) / TAB_SIZE + 1) * TAB_SIZE + 1;
      } else {
        col := col + 1;
      }
      p := p + 1;
    }
  }

  /** The word `findWordAtCursor` copies: the identifier around `pos`, or
      none when the cursor is not on an identifier character. */
  method WordAt(t: seq<char>, pos: nat) returns (w: Option<seq<char>>)
    requires pos <= |t|
    ensures w == WordAtCursor(t, pos)
    ensures NulFree(t) && w.Some? ==> NulFree(w.value)
  {
    if pos < |t| && IsIdent(t[pos]) {
      var p := ScanIdentBack(t, pos);
      var q := ScanIdentForward(t, pos + 1);
      w := Some(CopyChars(t, p, q));
    } else {
      w := None;
    }
  }

  /** The backward loop of `findWordAtCursor`: step left over identifier
      characters. */
  method ScanIdentBack(t: seq<char>, p0: nat) returns (p: nat)
    requires p0 <= |t|
    ensures p == IdentStart(t, p0)
  {
    p := p0;
    while p > 0 && IsIdent(t[p - 1])
      invariant p <= p0 && IdentStart(t, p) == IdentStart(t, p0)
    {
      p := p - 1;
    }
  }

  /** The forward loop of `findWordAtCursor`: step right over identifier
      characters. */
  method ScanIdentForward(t: seq<char>, q0: nat) returns (q: nat)
    requires q0 <= |t|
    ensures q == IdentEnd(t, q0)
  {
    q := q0;
    while q < |t| && IsIdent(t[q])
      invariant q0 <= q <= |t| && IdentEnd(t, q) == IdentEnd(t, q0)
    {
      q := q + 1;
    }
  }

  function AtLeastOne(l: int): (r: int)
    ensures r >= 1 && (l >= 1 ==> r == l)
  {
    if l < 1 then 1 else l
  }

  /** Changing the text only at or after `p` keeps the line and column of `p`. */
  lemma CursorKept(t: seq<char>, u: seq<char>, p: nat)
    requires p <= |t| && p <= |u| && t[..p] == u[..p]
    ensures LineAt(t, p) == LineAt(u, p) && ColAt(t, p) == ColAt(u, p)
  {
    LineAtPrefix(t, u, p);
    ColAtPrefix(t, u, p);
  }

  /** How far `updateScreen` has got along a line `t[p0..e]` whose display
      is `d`: it is at offset `p` and column `i`, having produced `emitted`. */
  ghost predicate RowProgress(t: seq<char>, p0: nat, p: nat, e: nat, i: int,
                              emitted: seq<char>, d: seq<char>)
  {
    p0 <= p <= e <= |t| && i >= 1 && |emitted| == i - 1
    && (p < e ==> emitted + Expand(t[p..e], i) == d)
    && (p == e ==> |d| <= i - 1 && emitted == Pad(d, i - 1))
  }

  lemma RowProgressStep(t: seq<char>, p0: nat, p: nat, e: nat, i: int,
                        emitted: seq<char>, d: seq<char>, c: char, next: nat)
    requires RowProgress(t, p0, p, e, i, emitted, d)
    requires p <= next <= e
    requires p == e ==> c == ' ' && next == e
    requires p < e ==> Expand(t[p..e], i) == [c] + Expand(t[next..e], i + 1)
    ensures RowProgress(t, p0, next, e, i + 1, emitted + [c], d)
  {
    if p < e {
      assert emitted + [c] + Expand(t[next..e], i + 1) == d;
      if next == e {
        assert t[next..e] == [];
        assert emitted + [c] == d;
      }
    } else {
      assert Pad(d, i) == Pad(d, i - 1) + [' '];
    }
  }

  lemma RowProgressDone(t: seq<char>, p0: nat, p: nat, e: nat, len: nat,
                        emitted: seq<char>, d: seq<char>)
    requires RowProgress(t, p0, p, e, len + 1, emitted, d)
    ensures emitted == Pad(d, len)
  {
    if p < e {
      assert d[..len] == emitted;
    }
  }

  /** The cell loop of one `updateScreen` row: walk the line from `p0` (it
      ends at `e`) column by column up to column `lf + width - 1`,
      expanding tabs and padding with spaces, and store the columns from
      `lf` on at `q0`. Gives the offset the walk stopped at. */
  method ComposeCells(t: seq<char>, p0: nat, ghost e: nat, ghost d: seq<char>, lf: int, width: int,
                      screen: array<char>, q0: int) returns (p: nat, ghost emitted: seq<char>)
    requires p0 <= e <= |t| && (e == |t| || t[e] == '\n') && d == Expand(t[p0..e], 1)
    requires forall k :: p0 <= k < e ==> t[k] != '\n'
    requires lf >= 1 && width >= 1 && 0 <= q0 && q0 + width <= screen.Length
    modifies screen
    ensures p0 <= p <= e && emitted == Pad(d, lf - 1 + width)
    ensures forall k :: 0 <= k < q0 ==> screen[k] == old(screen[k])
    ensures forall k :: q0 <= k < q0 + width ==> screen[k] == emitted[k - q0 + lf - 1]
  {
    p := p0;
    var q := q0;
    emitted := [];
    var len := lf + width - 1;
    var i := 1;
    while i <= len
      invariant 1 <= i <= len + 1
      invariant RowProgress(t, p0, p, e, i, emitted, d)
      invariant q == q0 + (if i > lf then i - lf else 0)
      invariant forall k :: 0 <= k < q0 ==> screen[k] == old(screen[k])
      invariant forall k :: q0 <= k < q ==> screen[k] == emitted[k - q0 + lf - 1]
    {
      var c, next := NextCell(t, p, e, i);
      RowProgressStep(t, p0, p, e, i, emitted, d, c, next);
      p := next;
      if i >= lf {
        screen[q] := c;
        q := q + 1;
      }
      emitted := emitted + [c];
      i := i + 1;
    }
    RowProgressDone(t, p0, p, e, len, emitted, d);
  }

  /** Overwrite the last `|row|` cells of `a` with `row`. */
  method StoreRow(a: array<char>, q: int, row: seq<char>)
    requires 0 <= q && q + |row| == a.Length
    modifies a
    ensures a[..] == old(a[..q]) + row
  {
    forall k | 0 <= k < |row| {
      a[q + k] := row[k];
    }
    assert a[..] == a[..q] + a[q..];
  }

  /** What the loop of `trimTrailingWhitespace` keeps after reading `p`
      characters of `s`: `buf[..q]` is the committed output `out` followed
      by the pending blanks `run`, which start at `r` (-1 for none), and the
      rest of the text is still unread. */
  ghost predicate TrimState(s: seq<char>, buf: seq<char>, p: int, q: int, r: int,
                            out: seq<char>, run: seq<char>)
  {
    0 <= q <= p <= |buf| == |s| && buf[p..] == s[p..]
    && buf[..q] == out + run && q == |out| + |run|
    && r >= -1 && (r == -1 <==> run == []) && (r >= 0 ==> r == |out|)
    && out + TrimFrom(s[p..], run) == Trimmed(s)
  }

  lemma TrimBlank(s: seq<char>, buf: seq<char>, p: int, q: int, r: int,
                  out: seq<char>, run: seq<char>)
    requires TrimState(s, buf, p, q, r, out, run) && p < |buf| && IsBlank(buf[p])
    ensures TrimState(s, buf[q := buf[p]], p + 1, q + 1, if r < 0 then q else r, out, run + [buf[p]])
  {
    TrimStep(s, p, run);
    StoreExtends(buf, q, buf[p]);
    assert buf[q := buf[p]][p + 1..] == buf[p + 1..] == s[p + 1..];
  }

  lemma TrimNewline(s: seq<char>, buf: seq<char>, p: int, q: int, r: int,
                    out: seq<char>, run: seq<char>)
    requires TrimState(s, buf, p, q, r, out, run) && p < |buf| && buf[p] == '\n'
    ensures var q' := if r >= 0 then r else q;
            TrimState(s, buf[q' := '\n'], p + 1, q' + 1, -1, out + ['\n'], [])
  {
    TrimStep(s, p, run);
    var q' := if r >= 0 then r else q;
    PrefixOfPrefix(buf, q', q);
    assert (out + run)[..|out|] == out;
    StoreExtends(buf, q', '\n');
    assert buf[q' := '\n'][p + 1..] == buf[p + 1..] == s[p + 1..];
    assert buf[..q'] == out;
    assert out + TrimFrom(s[p..], run) == (out + ['\n']) + TrimFrom(s[p + 1..], []);
  }

  lemma TrimOther(s: seq<char>, buf: seq<char>, p: int, q: int, r: int,
                  out: seq<char>, run: seq<char>)
    requires TrimState(s, buf, p, q, r, out, run) && p < |buf|
    requires !IsBlank(buf[p]) && buf[p] != '\n'
    ensures TrimState(s, buf[q := buf[p]], p + 1, q + 1, -1, out + run + [buf[p]], [])
  {
    TrimStep(s, p, run);
    StoreExtends(buf, q, buf[p]);
    assert out + TrimFrom(s[p..], run) == (out + run + [buf[p]]) + TrimFrom(s[p + 1..], []);
  }

  /** At the end of the text the pending blanks are dropped. */
  lemma TrimDone(s: seq<char>, buf: seq<char>, p: int, q: int, r: int,
                 out: seq<char>, run: seq<char>)
    requires TrimState(s, buf, p, q, r, out, run) && p == |buf|
    ensures (if r >= 0 then buf[..r] else buf[..q]) == Trimmed(s)
  {
    assert s[p..] == [];
    assert TrimFrom([], run) == [];
    if r >= 0 {
      PrefixOfPrefix(buf, r, q);
      assert (out + run)[..|out|] == out;
    } else {
      assert run == [];
    }
  }

  /** The loop of `trimTrailingWhitespace`: copy the text onto itself,
      holding back each run of blanks (`r` is where it starts) until a
      character other than a newline commits it. */
  method TrimLines(s: seq<char>) returns (u: seq<char>)
    ensures u == Trimmed(s)
  {
    var buf := s;
    var p, q, r := 0, 0, -1;
    ghost var out: seq<char> := [];
    ghost var run: seq<char> := [];
    while p < |buf|
      invariant TrimState(s, buf, p, q, r, out, run)
      decreases |buf| - p
    {
      var c := buf[p];
      if c == ' ' || c == '\t' {
        TrimBlank(s, buf, p, q, r, out, run);
        if r < 0 {
          r := q;
        }
        run := run + [c];
      } else if c == '\n' {
        TrimNewline(s, buf, p, q, r, out, run);
        if r >= 0 {
          q := r;
          r := -1;
        }
        out := out + [c];
        run := [];
      } else {
        TrimOther(s, buf, p, q, r, out, run);
        r := -1;
        out := out + run + [c];
        run := [];
      }
      buf := buf[q := c];
      p, q := p + 1, q + 1;
    }
    TrimDone(s, buf, p, q, r, out, run);
    if r >= 0 {
      q := r;
    }
    u := buf[..q];
  }

  /** One row of `updateScreen`: walk line `n` of `t`, which starts at
      `p0`, column by column up to column `lf + width - 1`, expanding tabs
      and padding with spaces, store the columns from `lf` on at `q0`, then
      step past the line's newline. */
  method ComposeRow(t: seq<char>, p0: nat, ghost n: int, lf: int, width: int,
                    screen: array<char>, q0: int) returns (p: nat)
    requires n >= 1 && p0 == FindLine(t, n)
    requires lf >= 1 && width >= 1 && 0 <= q0 && q0 + width <= screen.Length
    modifies screen
    ensures screen[..q0] == old(screen[..q0])
    ensures screen[q0..q0 + width] == EveRow(t, n, lf, width)
    ensures p == FindLine(t, n + 1)
  {
    ghost var e := FindChar(t, p0, '\n');
    ghost var d := Expand(t[p0..e], 1);
    ghost var emitted;
    p, emitted := ComposeCells(t, p0, e, d, lf, width, screen, q0);
    assert screen[..q0] == old(screen[..q0]);
    assert screen[q0..q0 + width] == EveRow(t, n, lf, width) by {
      assert EveRow(t, n, lf, width) == Window(d, lf, width) == emitted[lf - 1..];
    }
    p := StepPastLine(t, p0, p);
    FindLineNext(t, n);
  }

  /** The row loop of `updateScreen`: `h` rows of `t` from line `tp`, each
      `w` cells wide from column `lf`, stored from the start of `screen`. */
  method FillRows(t: seq<char>, tp: int, lf: int, w: int, h: int, screen: array<char>)
    requires tp >= 1 && lf >= 1 && w >= 1 && h >= 0
    requires screen.Length == w * (h + 1)
    modifies screen
    ensures screen[..w * h] == EveGrid(t, tp, lf, w, h)
  {
    var p := FindLine(t, tp);
    var q := 0;
    var j := 1;
    while j <= h
      invariant 1 <= j <= h + 1
      invariant p == FindLine(t, tp + j - 1)
      invariant q == w * (j - 1) && q <= screen.Length
      invariant screen[..q] == EveGrid(t, tp, lf, w, j - 1)
    {
      RowFits(j - 1, w, h);
      ghost var g := screen[..q];
      p := ComposeRow(t, p, tp + j - 1, lf, w, screen, q);
      EveGridSnoc(t, tp, lf, w, j - 1);
      GridExtend(screen[..], q, w, g, EveRow(t, tp + j - 1, lf, w));
      q := q + w;
      j := j + 1;
    }
  }

  class Editor {
    /** The document, without its terminating NUL. */
    var text: seq<char>
    var size: int
    var capacity: int
    /** The cursor: an offset into `text` and its 1-based line and column. */
    var position: int
    var line: int
    var column: int
    /** The column vertical motion aims for. */
    var preferredColumn: int
    /** The selection anchor, or -1 when nothing is selected. */
    var selection: int
    /** The clipboard and the search pattern (null pointers are `None`). */
    var buffer: Option<seq<char>>
    var pattern: Option<seq<char>>
    /** The first line and column shown, and the size of the text area. */
    var top: int
    var left: int
    var width: int
    var height: int
    /** The text area followed by the status row. */
    var screen: array<char>

    /** The text buffer is consistent: `size` is its length, it has room for
        its terminator, holds no NUL, and the selection lies inside it. */
    ghost predicate BufferValid()
      reads this`text, this`size, this`capacity, this`selection, this`buffer, this`pattern
    {
      size == |text| && NulFree(text) && capacity > size && -1 <= selection <= size
      && (buffer.Some? ==> NulFree(buffer.value))
      && (pattern.Some? ==> NulFree(pattern.value))
    }

    /** The whole editor is consistent: the cursor lies in the text, its line
        is the offset's line and its column the offset's display column,
        except after moving past the last line, which leaves the cursor at
        the end of the text in column 1. */
    ghost predicate Valid()
      reads this`text, this`size, this`capacity, this`selection, this`buffer, this`pattern,
            this`position, this`line, this`column, this`preferredColumn
    {
      BufferValid() && 0 <= position <= size
      && line == LineAt(text, position)
      && (column == ColAt(text, position) || (position == size && column == 1))
      && preferredColumn >= 1
    }

    /** The viewport is consistent: it starts at line and column 1 or
        later, and the screen holds the text area and the status row. */
    ghost predicate ViewValid()
      reads this`top, this`left, this`width, this`height, this`screen
    {
      top >= 1 && left >= 1 && width >= 1 && height >= 0 && screen.Length == width * (height + 1)
    }

    /** The cursor's line and column are those of its offset. */
    ghost predicate Synced()
      reads this`text, this`position, this`line, this`column, this`preferredColumn
      requires 0 <= position <= |text|
    {
      line == LineAt(text, position) && column == ColAt(text, position) && preferredColumn == column
    }

    /** `openFile` and the set-up in `editor`: the document is the file's
        contents, or empty when the file could not be read; the console is
        `consoleWidth` by `consoleHeight` and its last row is the status row. */
    constructor (contents: Option<seq<char>>, consoleWidth: int, consoleHeight: int)
      requires contents.Some? ==> NulFree(contents.value)
      requires consoleWidth >= 1 && consoleHeight >= 1
      ensures text == (if contents.Some? then contents.value else [])
      ensures capacity == size + 1
      ensures position == 0 && line == 1 && column == 1 && preferredColumn == 1
      ensures selection == -1 && buffer.None? && pattern.None?
      ensures width == consoleWidth && height == consoleHeight - 1
      ensures Valid() && ViewValid()
      ensures top == ClampOrigin(1, 1, height) && left == ClampOrigin(1, 1, width)
      ensures screen[..] == EveGrid(text, top, left, width, height) + StatusRow(1, 1, width)
      ensures fresh(screen)
    {
      var t := if contents.Some? then contents.value else [];
      text := t;
      size := |t|;
      capacity := |t| + 1;
      position := 0;
      line, column := 1, 1;
      preferredColumn := 1;
      selection := -1;
      buffer, pattern := None, None;
      width := consoleWidth;
      height := consoleHeight - 1;
      top, left := 1, 1;
      screen := new char[consoleWidth * consoleHeight](_ => ' ');
      new;
      UpdateScreen();
    }

    /** `insertChars`: splice `chars` in at `pos`, growing the allocation to
        twice what is needed when the text and its terminator no longer fit. */
    method InsertChars(chars: seq<char>, pos: int)
      requires BufferValid() && 0 <= pos <= size && NulFree(chars)
      modifies this`text, this`size, this`capacity, this`selection
      ensures text == Insert(old(text), pos, chars)
      ensures capacity == GrownCapacity(old(size), |chars|, old(capacity))
      ensures selection == -1
      ensures BufferValid()
    {
      var cap := size + |chars| + 1;
      if cap > capacity {
        capacity := cap * 2;
      }
      text := Insert(text, pos, chars);
      size := size + |chars|;
      selection := -1;
    }

    /** `deleteChars`: remove `[pos, pos + len)`. */
    method DeleteChars(pos: int, len: int)
      requires BufferValid() && 0 <= pos && 0 <= len && pos + len <= size
      modifies this`text, this`size, this`selection
      ensures text == Delete(old(text), pos, len)
      ensures selection == -1
      ensures BufferValid()
    {
      text := Delete(text, pos, len);
      size := size - len;
      selection := -1;
    }

    /** `trimTrailingWhitespace`: one pass that copies the text onto itself,
        remembering where the current run of blanks started and dropping
        the run when a newline or the terminator follows it. */
    method TrimTrailingWhitespace()
      requires BufferValid()
      modifies this`text, this`size, this`selection
      ensures text == Trimmed(old(text))
      ensures selection == -1
      ensures BufferValid()
    {
      var t := TrimLines(text);
      TrimmedNulFree(text);
      text, size, selection := t, |t|, -1;
    }

    /** `positionToLineColumn`: walk from the start of the text to the
        cursor, counting lines and expanding tabs. */
    method PositionToLineColumn()
      requires BufferValid() && 0 <= position <= size
      modifies this`line, this`column, this`preferredColumn
      ensures Synced()
    {
      var p := 0;
      line, column := 1, 1;
      while p < position
        invariant 0 <= p <= position
        invariant line == LineAt(text, p) && column == ColAt(text, p)
      {
        if text[p] == '\n' {
          line := line + 1;
          column := 1;
        } else if text[p] == '\t' {
          column := ((column - 1) / TAB_SIZE + 1) * TAB_SIZE + 1;
        } else {
          column := column + 1;
        }
        p := p + 1;
      }
      preferredColumn := column;
    }

    /** `lineColumnToPosition`: go to the start of line `line` (or the end of
        the text), then along it towards `preferredColumn`, stopping at the
        end of the line. */
    method LineColumnToPosition()
      requires BufferValid()
      modifies this`position, this`line, this`column
      ensures (position, line, column) == LineColumnTarget(text, old(line), preferredColumn)
      ensures 0 <= position <= size && line == LineAt(text, position)
      ensures column == ColAt(text, position) || (position == size && column == 1)
    {
      var t, pc := text, preferredColumn;
      var preferredLine := line;
      var p, ln := WalkToLine(t, preferredLine);
      var col;
      p, col := WalkColumns(t, p, pc);
      TargetSynced(t, preferredLine, pc);
      position, line, column := p, ln, col;
    }

    /** The text area of `updateScreen`: `height` rows from line `top`. */
    method FillGrid()
      requires top >= 1 && left >= 1 && width >= 1 && height >= 0
      requires screen.Length == width * (height + 1)
      modifies screen
      ensures screen[..width * height] == EveGrid(text, top, left, width, height)
    {
      FillRows(text, top, left, width, height, screen);
    }

    /** The status row of `updateScreen`: blank, with "line, column" at
        its right end when that fits. */
    method WriteStatus()
      requires width >= 1 && height >= 0 && screen.Length == width * (height + 1)
      modifies screen
      ensures screen[..] == old(screen[..width * height]) + StatusRow(line, column, width)
    {
      RowFits(height, width, height);
      var status := StatusRow(line, column, width);
      assert |status| == width;
      StoreRow(screen, width * height, status);
    }

    /** `updateScreen`: scroll so the cursor is in view, then fill the text
        area row by row from line `top` and end with the status row. */
    method UpdateScreen()
      requires Valid() && ViewValid()
      modifies this`top, this`left, screen
      ensures top == ClampOrigin(old(top), line, height)
      ensures left == ClampOrigin(old(left), column, width)
      ensures screen[..] == EveGrid(text, top, left, width, height) + StatusRow(line, column, width)
      ensures ViewValid()
    {
      if line < top {
        top := line;
      } else if line >= top + height {
        top := line - height + 1;
      }
      if column < left {
        left := column;
      } else if column >= left + width {
        left := column - width + 1;
      }
      FillGrid();
      WriteStatus();
    }

    /** The text, its allocation, the selection and the clipboard are unchanged. */
    twostate predicate Kept()
      reads this
    {
      text == old(text) && size == old(size) && capacity == old(capacity)
      && selection == old(selection) && buffer == old(buffer)
    }

    /** Nothing but the cursor changed. */
    twostate predicate TextKept()
      reads this
    {
      Kept() && pattern == old(pattern)
    }

    /** Only the cursor changed, to offset `p`, with its line and column recomputed. */
    twostate predicate MovedTo(p: int)
      reads this
    {
      TextKept() && position == p && 0 <= p <= |text| && Synced()
    }

    /** Only the cursor changed, as `lineColumnToPosition` moves it to line `l`. */
    twostate predicate MovedToLine(l: int)
      reads this
    {
      TextKept() && preferredColumn == old(preferredColumn)
      && (position, line, column) == LineColumnTarget(text, l, preferredColumn)
    }

    /** `deleteWordForward` happened: the text from the cursor to the end of
        its word is gone, reporting whether anything was. */
    twostate predicate DeletedWordForward(changed: bool)
      reads this
    {
      0 <= old(position) <= |old(text)|
      && (changed <==> old(position) < |old(text)|)
      && text == Delete(old(text), old(position), WordForward(old(text), old(position)) - old(position))
      && position == old(position) && line == old(line) && column == old(column)
      && preferredColumn == old(preferredColumn) && capacity == old(capacity)
      && buffer == old(buffer) && pattern == old(pattern)
      && selection == (if changed then -1 else old(selection))
    }

    /** `deleteWordBack` happened: the text from the start of the word before
        the cursor up to the cursor is gone and the cursor is where it began. */
    twostate predicate DeletedWordBack(changed: bool)
      reads this
    {
      0 <= old(position) <= |old(text)|
      && (changed <==> old(position) > 0)
      && var w := WordBack(old(text), old(position));
         text == Delete(old(text), w, old(position) - w) && position == w
         && capacity == old(capacity) && buffer == old(buffer) && pattern == old(pattern)
         && (changed ==> selection == -1 && Synced())
         && (!changed ==> selection == old(selection) && line == old(line) && column == old(column)
                          && preferredColumn == old(preferredColumn))
    }

    /** `copyDeleteText` happened: the selection, or the current line with its
        newline when nothing is selected, went to the clipboard and, unless
        copying, out of the text; the selection is cleared either way. */
    twostate predicate CopiedOrDeleted(copy: bool, changed: bool)
      reads this
    {
      0 <= old(position) <= |old(text)| && old(selection) <= |old(text)|
      && var sp := CopySpan(old(text), old(position), old(selection));
         SpanTaken(copy, changed, sp.0, sp.1)
    }

    /** The span `[p, q)` was taken: the selection is cleared, a non-empty
        span went to the clipboard and, unless copying, out of the text, with
        the cursor at its start; otherwise the text and the cursor stay. */
    twostate predicate SpanTaken(copy: bool, changed: bool, p: int, q: int)
      requires 0 <= p <= q <= |old(text)|
      reads this
    {
      (p < q ==> buffer == Some(old(text)[p..q]))
      && (p == q ==> buffer == old(buffer))
      && (changed <==> !copy && p < q)
      && (changed ==> text == Delete(old(text), p, q - p) && position == p && Synced())
      && (!changed ==> text == old(text) && position == old(position) && line == old(line)
                       && column == old(column) && preferredColumn == old(preferredColumn))
      && selection == -1 && capacity == old(capacity) && pattern == old(pattern)
    }

    /** `pasteText` happened: the clipboard, if any, went in at the cursor,
        which moved past it. */
    twostate predicate Pasted(changed: bool)
      reads this
    {
      0 <= old(position) <= |old(text)| && buffer == old(buffer) && pattern == old(pattern)
      && (changed <==> buffer.Some?)
      && (changed ==> text == Insert(old(text), old(position), buffer.value)
                      && position == old(position) + |buffer.value| && selection == -1 && Synced()
                      && capacity == GrownCapacity(|old(text)|, |buffer.value|, old(capacity)))
      && (!changed ==> text == old(text) && capacity == old(capacity) && selection == old(selection)
                       && position == old(position) && line == old(line) && column == old(column)
                       && preferredColumn == old(preferredColumn))
    }

    /** `findNext` happened for the current pattern: the cursor went to the
        next match, if there is one other than the cursor itself. */
    twostate predicate FoundNext(found: bool)
      reads this
    {
      Kept() && 0 <= old(position) <= |text|
      && var m := if pattern.Some? then NextMatch(text, old(position), pattern.value) else None;
         (found <==> m.Some?)
         && (found ==> position == m.value && Synced())
         && (!found ==> position == old(position) && line == old(line) && column == old(column)
                        && preferredColumn == old(preferredColumn))
    }

    /** The save command happened: the text lost its trailing blanks and the
        cursor went back to its line and preferred column in the new text. */
    twostate predicate Saved()
      reads this
    {
      text == Trimmed(old(text)) && selection == -1 && capacity == old(capacity)
      && buffer == old(buffer) && pattern == old(pattern) && preferredColumn == old(preferredColumn)
      && (position, line, column) == LineColumnTarget(text, old(line), preferredColumn)
    }

    /** `insertChar(c)` happened: `TypedChars` went in at the cursor, which
        moved past them. */
    twostate predicate Typed(c: char)
      reads this
    {
      0 <= old(position) <= |old(text)|
      && var ins := TypedChars(old(text), old(position), c);
         text == Insert(old(text), old(position), ins) && position == old(position) + |ins|
         && capacity == GrownCapacity(|old(text)|, |ins|, old(capacity))
         && selection == -1 && buffer == old(buffer) && pattern == old(pattern)
         && 0 <= position <= |text| && Synced()
    }

    /** Alt+M happened: the selection anchor is now the cursor and nothing
        else changed. */
    twostate predicate Marked()
      reads this
    {
      selection == old(position) && text == old(text) && size == old(size) && capacity == old(capacity)
      && position == old(position) && line == old(line) && column == old(column)
      && preferredColumn == old(preferredColumn) && buffer == old(buffer) && pattern == old(pattern)
    }

    /** The Ctrl branch of `processKey` happened for `k`: Ctrl+Right and
        Ctrl+Left move by words, any other Ctrl key does nothing. */
    twostate predicate CtrlKeyDone(k: Key, update: bool)
      reads this
    {
      0 <= old(position) <= |old(text)|
      && (k.code == KeyRight ==> update && MovedTo(WordForward(old(text), old(position))))
      && (k.code == KeyLeft ==> update && MovedTo(WordBack(old(text), old(position))))
      && (k.code != KeyRight && k.code != KeyLeft ==> !update && unchanged(this))
    }

    /** The keys Alt acts on by code happened for `k`: word deletion,
        either end of the text, half a page up or down. */
    twostate predicate AltMotionDone(k: Key, update: bool)
      reads this
    {
      if k.code == KeyDelete then DeletedWordForward(update)
      else if k.code == KeyBackspace then DeletedWordBack(update)
      else if k.code == KeyHome then update && MovedTo(0)
      else if k.code == KeyEnd then update && MovedTo(old(size))
      else if k.code == KeyPgUp then update && MovedToLine(AtLeastOne(old(line) - old(height) / 2))
      else k.code == KeyPgDn ==> update && MovedToLine(old(line) + old(height) / 2)
    }

    /** The file command `c` (Alt+Q, S, X or B) happened: quitting leaves
        everything as it was, the others save first; only S and B go on. */
    twostate predicate FileDone(c: char, update: bool, running: bool)
      reads this
    {
      (running <==> c == 's' || c == 'b') && (update <==> running)
      && (c == 'q' ==> unchanged(this))
      && (c != 'q' ==> Saved())
    }

    /** The clipboard command `c` (Alt+D, C, P or M) happened: cut, copy,
        paste or mark. */
    twostate predicate ClipboardDone(c: char, update: bool)
      reads this
    {
      (c == 'd' ==> CopiedOrDeleted(false, update))
      && (c == 'c' ==> CopiedOrDeleted(true, update))
      && (c == 'p' ==> Pasted(update))
      && (c == 'm' ==> !update && Marked())
    }

    /** The search command `c` (Alt+F, O or N) happened, with `answer` what
        the find prompt returned: find it, find the word under the cursor,
        find again. */
    twostate predicate SearchDone(c: char, answer: Option<seq<char>>, update: bool)
      reads this
    {
      (c == 'f' ==> update && (FoundNext(true) || FoundNext(false))
                    && pattern == if answer.Some? then Some(CString(answer.value)) else None)
      && (c == 'o' ==> 0 <= old(position) <= |text| && pattern == WordAtCursor(text, old(position))
                       && FoundNext(update))
      && (c == 'n' ==> pattern == old(pattern) && FoundNext(update))
    }

    /** The Alt+letter command `c` happened; a letter that names no command
        does nothing. */
    twostate predicate CommandDone(c: char, answer: Option<seq<char>>, update: bool, running: bool)
      reads this
    {
      if c == 'q' || c == 's' || c == 'x' || c == 'b' then FileDone(c, update, running)
      else if c == 'd' || c == 'c' || c == 'p' || c == 'm' then running && ClipboardDone(c, update)
      else if c == 'f' || c == 'o' || c == 'n' then running && SearchDone(c, answer, update)
      else running && !update && unchanged(this)
    }

    /** Backspace or Delete without a modifier happened: the character
        before or at the cursor is gone when there is one. */
    twostate predicate EditDone(k: Key, update: bool)
      reads this
    {
      0 <= old(position) <= |old(text)| && (!update ==> unchanged(this))
      && (k.code == KeyBackspace ==>
            (update <==> old(position) > 0)
            && (update ==> text == Delete(old(text), old(position) - 1, 1) && position == old(position) - 1
                           && selection == -1 && capacity == old(capacity) && buffer == old(buffer)
                           && pattern == old(pattern) && 0 <= position <= |text| && Synced()))
      && (k.code == KeyDelete ==>
            (update <==> old(position) < |old(text)|)
            && (update ==> text == Delete(old(text), old(position), 1) && selection == -1
                           && position == old(position) && line == old(line) && column == old(column)
                           && preferredColumn == old(preferredColumn) && capacity == old(capacity)
                           && buffer == old(buffer) && pattern == old(pattern)))
    }

    /** Up, Down, PgUp or PgDn happened: the line changes by one or by a
        screen, with the column sticky, and Up on the first line does nothing. */
    twostate predicate LineMotionDone(k: Key, update: bool)
      reads this
    {
      (update <==> k.code != KeyUp || old(line) > 1)
      && (update ==> MovedToLine(LineTarget(k, old(line), old(height))))
      && (!update ==> unchanged(this))
    }

    /** Right, Left, Home or End happened: the offset moves by one, to the
        start of its line or to the line's end. */
    twostate predicate CursorMotionDone(k: Key, update: bool)
      reads this
    {
      0 <= old(position) <= |old(text)|
      && (k.code == KeyRight ==>
            (update <==> old(position) < |old(text)|) && (update ==> MovedTo(old(position) + 1))
            && (!update ==> unchanged(this)))
      && (k.code == KeyLeft ==>
            (update <==> old(position) > 0) && (update ==> MovedTo(old(position) - 1))
            && (!update ==> unchanged(this)))
      && (k.code == KeyHome ==> update && MovedTo(LineStart(old(text), old(position))))
      && (k.code == KeyEnd ==> update && MovedTo(FindChar(old(text), old(position), '\n')))
    }

    /** The branch of `processKey` for `k` without Ctrl or Alt happened:
        Backspace and Delete edit, the motion keys move, a typable
        character is inserted and any other key does nothing. */
    twostate predicate PlainKeyDone(k: Key, update: bool)
      reads this
    {
      if k.code == KeyBackspace || k.code == KeyDelete then EditDone(k, update)
      else if k.code == KeyUp || k.code == KeyDown || k.code == KeyPgUp || k.code == KeyPgDn then
        LineMotionDone(k, update)
      else if k.code == KeyRight || k.code == KeyLeft || k.code == KeyHome || k.code == KeyEnd then
        CursorMotionDone(k, update)
      else (update <==> IsTypable(k.ch)) && (update ==> Typed(k.ch)) && (!update ==> unchanged(this))
    }

    /** One key of `processKey`'s loop happened: the branch for `k` says
        what changed, whether the screen is to be redrawn and whether the
        editor keeps running. */
    twostate predicate KeyDone(k: Key, answer: Option<seq<char>>, update: bool, running: bool)
      reads this
    {
      if k.ctrl then running && CtrlKeyDone(k, update)
      else if k.alt then
        if IsAltMotion(k.code) then running && AltMotionDone(k, update)
        else CommandDone(k.ch, answer, update, running)
      else running && PlainKeyDone(k, update)
    }

    /** `deleteWordForward`. */
    method DeleteWordForward() returns (changed: bool)
      requires Valid()
      modifies this`text, this`size, this`selection
      ensures Valid() && DeletedWordForward(changed)
    {
      var pos := WordForward(text, position);
      if pos > position {
        assert position < size;
        DeleteChars(position, pos - position);
        CursorKept(old(text), text, position);
        changed := true;
      } else {
        assert position == size && text == Delete(text, position, 0);
        changed := false;
      }
    }

    /** `deleteWordBack`. */
    method DeleteWordBack() returns (changed: bool)
      requires Valid()
      modifies this`text, this`size, this`selection, this`position, this`line, this`column,
               this`preferredColumn
      ensures Valid() && DeletedWordBack(changed)
    {
      var pos := WordBack(text, position);
      if pos < position {
        DeleteChars(pos, position - pos);
        position := pos;
        PositionToLineColumn();
        changed := true;
      } else {
        assert text == Delete(text, pos, 0);
        changed := false;
      }
    }

    /** The span `copyDeleteText` works on; a selection is cleared. */
    method SpanToCopy() returns (p: int, q: int)
      requires Valid()
      ensures (p, q) == CopySpan(text, position, selection)
    {
      if selection < 0 {
        p := LineStart(text, position);
        q := LineEndAfterNewline(text, position);
      } else {
        if selection < position {
          p, q := selection, position;
        } else {
          p, q := position, selection;
        }
      }
    }

    /** `copyDeleteText`: the span is the selection, or the line holding the
        cursor from its start through its newline. */
    method CopyDeleteText(copy: bool) returns (changed: bool)
      requires Valid()
      modifies this`text, this`size, this`selection, this`position, this`line, this`column,
               this`preferredColumn, this`buffer
      ensures Valid() && CopiedOrDeleted(copy, changed)
    {
      var p, q := SpanToCopy();
      changed := TakeSpan(copy, p, q);
    }

    /** The rest of `copyDeleteText`: clear the selection, then copy the
        span to the clipboard and, unless copying, cut it. */
    method TakeSpan(copy: bool, p: int, q: int) returns (changed: bool)
      requires Valid() && 0 <= p <= q <= size
      modifies this`text, this`size, this`selection, this`position, this`line, this`column,
               this`preferredColumn, this`buffer
      ensures Valid() && SpanTaken(copy, changed, p, q)
    {
      selection := -1;
      if p < q {
        buffer := Some(CopyChars(text, p, q));
        if !copy {
          DeleteSpan(p, q);
          return true;
        }
      }
      return false;
    }

    /** The cut of `copyDeleteText`: the cursor goes to `p`, then the
        characters from `p` up to `q` are deleted. */
    method DeleteSpan(p: int, q: int)
      requires Valid() && 0 <= p < q <= size
      modifies this`text, this`size, this`selection, this`position, this`line, this`column,
               this`preferredColumn
      ensures Valid() && text == Delete(old(text), p, q - p) && position == p && Synced()
      ensures selection == -1
    {
      position := p;
      PositionToLineColumn();
      ghost var before := text;
      DeleteChars(position, q - p);
      CursorKept(before, text, position);
    }

    /** `pasteText`. */
    method PasteText() returns (changed: bool)
      requires Valid()
      modifies this`text, this`size, this`capacity, this`selection, this`position, this`line,
               this`column, this`preferredColumn
      ensures Valid() && Pasted(changed)
    {
      if buffer.Some? {
        var len := |buffer.value|;
        InsertChars(buffer.value, position);
        position := position + len;
        PositionToLineColumn();
        return true;
      }
      return false;
    }

    /** `findNext`: search from just after the cursor, then from the start. */
    method FindNext() returns (found: bool)
      requires Valid()
      modifies this`position, this`line, this`column, this`preferredColumn
      ensures Valid() && FoundNext(found)
    {
      if pattern.Some? {
        var q := if position < size then Search(text, position + 1, pattern.value) else None;
        if q.None? {
          q := Search(text, 0, pattern.value);
        }
        if q.Some? && q.value != position {
          position := q.value;
          PositionToLineColumn();
          return true;
        }
      }
      return false;
    }

    /** `findWordAtCursor`: make the identifier under the cursor the search
        pattern (none when the cursor is not on one) and find its next
        occurrence. */
    method FindWordAtCursor() returns (found: bool)
      requires Valid()
      modifies this`pattern, this`position, this`line, this`column, this`preferredColumn
      ensures Valid() && pattern == WordAtCursor(text, old(position)) && FoundNext(found)
    {
      pattern := WordAt(text, position);
      found := FindNext();
    }

    /** `saveFile`, without the write: trim, then put the cursor back on its line. */
    method SaveFile()
      requires Valid()
      modifies this`text, this`size, this`selection, this`position, this`line, this`column
      ensures Valid() && Saved()
    {
      TrimTrailingWhitespace();
      LineColumnToPosition();
    }

    /** What `insertChar` inserts for `c`; for a newline this scans the
        blanks that open the cursor's line. */
    method CharsToInsert(c: char) returns (ins: seq<char>)
      requires BufferValid() && 0 <= position <= size
      ensures ins == TypedChars(text, position, c)
    {
      if c == '\n' {
        var p := LineStart(text, position);
        var q := p;
        while q < size && (text[q] == ' ' || text[q] == '\t')
          invariant p <= q <= size && SkipBlanks(text, q) == SkipBlanks(text, p)
        {
          q := q + 1;
        }
        ins := ['\n'] + text[p..q];
      } else if c == '\t' {
        ins := Spaces(TAB_SIZE);
      } else if c == REAL_TAB {
        ins := ['\t'];
      } else {
        ins := [c];
      }
    }

    /** `insertChar`. */
    method InsertChar(c: char)
      requires Valid() && c != NUL
      modifies this`text, this`size, this`capacity, this`selection, this`position, this`line,
               this`column, this`preferredColumn
      ensures Valid() && Typed(c)
    {
      var ins := CharsToInsert(c);
      InsertChars(ins, position);
      position := position + |ins|;
      PositionToLineColumn();
    }

    /** The Ctrl branch of `processKey`: Ctrl+Right and Ctrl+Left move by words. */
    method ApplyCtrlKey(k: Key) returns (update: bool)
      requires Valid() && k.ctrl
      modifies this`position, this`line, this`column, this`preferredColumn
      ensures Valid() && CtrlKeyDone(k, update)
      ensures update <==> k.code == KeyRight || k.code == KeyLeft
    {
      update := false;
      if k.code == KeyRight {
        position := WordForward(text, position);
        PositionToLineColumn();
        update := true;
      } else if k.code == KeyLeft {
        position := WordBack(text, position);
        PositionToLineColumn();
        update := true;
      }
    }

    /** Alt+Delete and Alt+Backspace: delete a word either way. */
    method AltDeleteKey(k: Key) returns (update: bool)
      requires Valid() && (k.code == KeyDelete || k.code == KeyBackspace)
      modifies this`text, this`size, this`selection, this`position, this`line, this`column,
               this`preferredColumn
      ensures Valid() && AltMotionDone(k, update)
    {
      if k.code == KeyDelete {
        update := DeleteWordForward();
      } else {
        update := DeleteWordBack();
      }
    }

    /** Alt+Home and Alt+End: go to either end of the text. */
    method AltEndKey(k: Key) returns (update: bool)
      requires Valid() && (k.code == KeyHome || k.code == KeyEnd)
      modifies this`position, this`line, this`column, this`preferredColumn
      ensures Valid() && update && AltMotionDone(k, update)
    {
      update := true;
      if k.code == KeyHome {
        position := 0;
      } else {
        position := size;
      }
      PositionToLineColumn();
    }

    /** Alt+PgUp and Alt+PgDn: move the cursor half a page up or down. */
    method AltHalfPageKey(k: Key) returns (update: bool)
      requires Valid() && (k.code == KeyPgUp || k.code == KeyPgDn)
      modifies this`position, this`line, this`column
      ensures Valid() && update && AltMotionDone(k, update)
    {
      update := true;
      if k.code == KeyPgUp {
        GoToLine(AtLeastOne(line - height / 2));
      } else {
        GoToLine(line + height / 2);
      }
    }

    /** Alt+Q, Alt+S, Alt+X and Alt+B: quit, save, save and quit, build
        (which saves first; running the build is not modelled). */
    method FileCommand(c: char) returns (update: bool, running: bool)
      requires Valid() && (c == 'q' || c == 's' || c == 'x' || c == 'b')
      modifies this`text, this`size, this`selection, this`position, this`line, this`column
      ensures Valid() && FileDone(c, update, running)
      ensures running <==> c != 'q' && c != 'x'
      ensures FixedCommandRedraw(c).Some? ==> update == FixedCommandRedraw(c).value
    {
      if c == 'q' {
        return false, false;
      }
      SaveFile();
      if c == 'x' {
        return false, false;
      }
      return true, true;
    }

    /** Alt+D, Alt+C, Alt+P and Alt+M: cut, copy, paste, set the selection anchor. */
    method ClipboardCommand(c: char) returns (update: bool)
      requires Valid() && (c == 'd' || c == 'c' || c == 'p' || c == 'm')
      modifies this`text, this`size, this`capacity, this`selection, this`position, this`line,
               this`column, this`preferredColumn, this`buffer
      ensures Valid() && ClipboardDone(c, update)
      ensures FixedCommandRedraw(c).Some? ==> update == FixedCommandRedraw(c).value
    {
      update := false;
      if c == 'd' {
        update := CopyDeleteText(false);
      } else if c == 'c' {
        update := CopyDeleteText(true);
      } else if c == 'p' {
        update := PasteText();
      } else {
        selection := position;
      }
    }

    /** Alt+F, Alt+O and Alt+N: find what the prompt returns (`answer`,
        `None` when cancelled), find the word under the cursor, find again. */
    method SearchCommand(c: char, answer: Option<seq<char>>) returns (update: bool)
      requires Valid() && (c == 'f' || c == 'o' || c == 'n')
      modifies this`position, this`line, this`column, this`preferredColumn, this`pattern
      ensures Valid() && SearchDone(c, answer, update)
      ensures FixedCommandRedraw(c).Some? ==> update == FixedCommandRedraw(c).value
    {
      if c == 'f' {
        pattern := if answer.Some? then Some(CString(answer.value)) else None;
        var _ := FindNext();
        update := true;
      } else if c == 'o' {
        update := FindWordAtCursor();
      } else {
        update := FindNext();
      }
    }

    /** Backspace and Delete without a modifier. */
    method EditKey(k: Key) returns (update: bool)
      requires Valid() && (k.code == KeyBackspace || k.code == KeyDelete)
      modifies this`text, this`size, this`selection, this`position, this`line, this`column,
               this`preferredColumn
      ensures Valid() && EditDone(k, update)
    {
      update := false;
      if k.code == KeyBackspace {
        if position > 0 {
          position := position - 1;
          DeleteChars(position, 1);
          PositionToLineColumn();
          update := true;
        }
      } else {
        if position < size {
          DeleteChars(position, 1);
          CursorKept(old(text), text, position);
          update := true;
        }
      }
    }

    /** Up, Down, PgUp and PgDn: change the line and let
        `lineColumnToPosition` find the offset. */
    method LineMotionKey(k: Key) returns (update: bool)
      requires Valid() && (k.code == KeyUp || k.code == KeyDown || k.code == KeyPgUp || k.code == KeyPgDn)
      modifies this`position, this`line, this`column
      ensures Valid() && LineMotionDone(k, update)
      ensures FixedPlainRedraw(k).Some? ==> update == FixedPlainRedraw(k).value
    {
      if k.code == KeyUp && line <= 1 {
        update := false;
      } else {
        GoToLine(LineTarget(k, line, height));
        update := true;
      }
    }

    /** Set the line and recompute the offset and column from it. */
    method GoToLine(l: int)
      requires Valid()
      modifies this`position, this`line, this`column
      ensures Valid() && MovedToLine(l)
    {
      line := l;
      LineColumnToPosition();
    }

    /** Right, Left, Home and End: move the offset and recompute the line
        and column. */
    method CursorMotionKey(k: Key) returns (update: bool)
      requires Valid() && (k.code == KeyRight || k.code == KeyLeft || k.code == KeyHome || k.code == KeyEnd)
      modifies this`position, this`line, this`column, this`preferredColumn
      ensures Valid() && CursorMotionDone(k, update)
      ensures FixedPlainRedraw(k).Some? ==> update == FixedPlainRedraw(k).value
    {
      update := true;
      if k.code == KeyRight {
        if position < size {
          position := position + 1;
          PositionToLineColumn();
        } else {
          update := false;
        }
      } else if k.code == KeyLeft {
        if position > 0 {
          position := position - 1;
          PositionToLineColumn();
        } else {
          update := false;
        }
      } else if k.code == KeyHome {
        position := LineStart(text, position);
        PositionToLineColumn();
      } else {
        position := FindChar(text, position, '\n');
        PositionToLineColumn();
      }
    }

    /** One key of `processKey`'s loop: what it does, whether the screen
        needs redrawing and whether the editor keeps running. */
    method ApplyKey(k: Key, answer: Option<seq<char>>) returns (update: bool, running: bool)
      requires Valid()
      modifies this`text, this`size, this`capacity, this`selection, this`position, this`line,
               this`column, this`preferredColumn, this`buffer, this`pattern
      ensures Valid() && KeyDone(k, answer, update, running)
      ensures running <==> !IsQuitKey(k)
      ensures FixedRedraw(k).Some? ==> update == FixedRedraw(k).value
    {
      running := true;
      if k.ctrl {
        update := ApplyCtrlKey(k);
      } else if k.alt {
        update, running := ApplyAltKey(k, answer);
      } else {
        update := ApplyPlainKey(k);
      }
    }

    /** The Alt branch of `processKey`. */
    method ApplyAltKey(k: Key, answer: Option<seq<char>>) returns (update: bool, running: bool)
      requires Valid() && !k.ctrl && k.alt
      modifies this`text, this`size, this`capacity, this`selection, this`position, this`line,
               this`column, this`preferredColumn, this`buffer, this`pattern
      ensures Valid()
      ensures IsAltMotion(k.code) ==> running && AltMotionDone(k, update)
      ensures !IsAltMotion(k.code) ==> CommandDone(k.ch, answer, update, running)
      ensures running <==> !IsQuitKey(k)
      ensures FixedAltRedraw(k).Some? ==> update == FixedAltRedraw(k).value
    {
      update, running := false, true;
      if k.code == KeyDelete || k.code == KeyBackspace {
        update := AltDeleteKey(k);
      } else if k.code == KeyHome || k.code == KeyEnd {
        update := AltEndKey(k);
      } else if k.code == KeyPgUp || k.code == KeyPgDn {
        update := AltHalfPageKey(k);
      } else {
        update, running := AltCommandKey(k.ch, answer);
      }
    }

    /** The Alt+letter commands of `processKey`: file, clipboard and search. */
    method AltCommandKey(c: char, answer: Option<seq<char>>) returns (update: bool, running: bool)
      requires Valid()
      modifies this`text, this`size, this`capacity, this`selection, this`position, this`line,
               this`column, this`preferredColumn, this`buffer, this`pattern
      ensures Valid() && CommandDone(c, answer, update, running)
      ensures running <==> c != 'q' && c != 'x'
      ensures FixedCommandRedraw(c).Some? ==> update == FixedCommandRedraw(c).value
    {
      update, running := false, true;
      if c == 'q' || c == 's' || c == 'x' || c == 'b' {
        update, running := FileCommand(c);
      } else if c == 'd' || c == 'c' || c == 'p' || c == 'm' {
        update := ClipboardCommand(c);
      } else if c == 'f' || c == 'o' || c == 'n' {
        update := SearchCommand(c, answer);
      }
    }

    /** The branch of `processKey` for keys without Ctrl or Alt: editing,
        motion, or a character typed into the text. */
    method ApplyPlainKey(k: Key) returns (update: bool)
      requires Valid() && !k.ctrl && !k.alt
      modifies this`text, this`size, this`capacity, this`selection, this`position, this`line,
               this`column, this`preferredColumn
      ensures Valid() && PlainKeyDone(k, update)
      ensures FixedPlainRedraw(k).Some? ==> update == FixedPlainRedraw(k).value
    {
      update := false;
      if k.code == KeyBackspace || k.code == KeyDelete {
        update := EditKey(k);
      } else if k.code == KeyUp || k.code == KeyDown || k.code == KeyPgUp || k.code == KeyPgDn {
        update := LineMotionKey(k);
      } else if k.code == KeyRight || k.code == KeyLeft || k.code == KeyHome || k.code == KeyEnd {
        update := CursorMotionKey(k);
      } else if IsTypable(k.ch) {
        InsertChar(k.ch);
        update := true;
      }
    }

    /** `processKey` for one batch of decoded keys: apply them in order,
        stop at a quit key, and redraw once at the end when the flag is
        raised. `answers[i]` is what the find prompt returns for `keys[i]`;
        `updates[i]` is what key `i` answered. */
    method ProcessKeys(keys: seq<Key>, answers: seq<Option<seq<char>>>)
      returns (running: bool, redrawn: bool, ghost updates: seq<bool>)
      requires Valid() && ViewValid() && |answers| == |keys|
      modifies this`text, this`size, this`capacity, this`selection, this`position, this`line,
               this`column, this`preferredColumn, this`buffer, this`pattern, this`top, this`left, screen
      ensures Valid() && ViewValid() && width == old(width) && height == old(height)
      ensures running <==> forall i :: 0 <= i < |keys| ==> !IsQuitKey(keys[i])
      ensures |updates| <= |keys| && (running ==> |updates| == |keys|)
      ensures !running ==> |updates| < |keys| && IsQuitKey(keys[|updates|])
      ensures forall i :: 0 <= i < |updates| && FixedRedraw(keys[i]).Some? ==> updates[i] == FixedRedraw(keys[i]).value
      ensures redrawn <==> running && Redraw(keys[..|updates|], updates)
      ensures redrawn ==> screen[..] == EveGrid(text, top, left, width, height) + StatusRow(line, column, width)
      ensures !redrawn ==> screen[..] == old(screen[..]) && top == old(top) && left == old(left)
    {
      var update;
      running, update, updates := ApplyKeys(keys, answers);
      AnsweredBatch(keys, updates, update);
      if !running {
        return false, false, updates;
      }
      if update {
        UpdateScreen();
      }
      redrawn := update;
    }

    /** The loop of `processKey`: apply the keys in order until a quit key,
        keeping the redraw flag as each branch sets or assigns it.
        `updates[i]` is what key `i` answered. */
    method ApplyKeys(keys: seq<Key>, answers: seq<Option<seq<char>>>)
      returns (running: bool, update: bool, ghost updates: seq<bool>)
      requires Valid() && |answers| == |keys|
      modifies this`text, this`size, this`capacity, this`selection, this`position, this`line,
               this`column, this`preferredColumn, this`buffer, this`pattern
      ensures Valid()
      ensures |updates| <= |keys| && Answered(keys[..|updates|], updates, update)
      ensures running <==> |updates| == |keys|
      ensures !running ==> IsQuitKey(keys[|updates|])
    {
      update, updates := false, [];
      var i := 0;
      while i < |keys|
        invariant 0 <= i <= |keys| && Valid() && Answered(keys[..i], updates, update)
      {
        var r, next;
        ghost var after;
        r, next, after := ApplyKeyWithFlag(keys[..i], keys[i], answers[i], update, updates);
        if !r {
          return false, update, updates;
        }
        update, updates := next, after;
        assert keys[..i + 1] == keys[..i] + [keys[i]];
        i := i + 1;
      }
      assert keys[..i] == keys;
      running := true;
    }

    /** One pass of `processKey`'s loop after the keys `done`: key `k`
        takes effect and the redraw flag is assigned its answer or, for the
        other branches, raised by it. */
    method ApplyKeyWithFlag(ghost done: seq<Key>, k: Key, answer: Option<seq<char>>, update: bool,
                            ghost updates: seq<bool>)
      returns (running: bool, update': bool, ghost updates': seq<bool>)
      requires Valid() && Answered(done, updates, update)
      modifies this`text, this`size, this`capacity, this`selection, this`position, this`line,
               this`column, this`preferredColumn, this`buffer, this`pattern
      ensures Valid()
      ensures running <==> !IsQuitKey(k)
      ensures running ==> Answered(done + [k], updates', update')
    {
      var u;
      u, running := ApplyKey(k, answer);
      update' := if AssignsFlag(k) then u else update || u;
      updates' := updates + [u];
      if running {
        AnsweredSnoc(done, updates, update, k, u, update');
      }
    }
  }
}
