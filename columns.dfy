/** The position <-> line/column mappings of both editors: eve.cpp:630-677
    (tab-expanding, with a sticky preferred column) and editor.c:185-226
    (one column per character). */
module Columns {
  import opened Chars
  import opened Scan

  /** The column after a tab typed at column `c`: the next tab stop
      (`TAB_SIZE` is 4). */
  function NextTab(c: int): (r: int)
    requires c >= 1
    ensures c < r <= c + 4
    ensures (r - 1) % 4 == 0
  {
    ((c - 1) / 4 + 1) * 4 + 1
  }

  /** Every column up to the next tab stop has the same next tab stop. */
  lemma NextTabWithinStop(c: int, i: int)
    requires 1 <= c <= i < NextTab(c)
    ensures NextTab(i) == NextTab(c)
  {
  }

  /** The column reached by one character of a line starting at column `col`. */
  function Advance(col: int, ch: char): (r: int)
    requires col >= 1
    ensures r > col
  {
    if ch == '\t' then NextTab(col) else col + 1
  }

  /** The 1-based display column of offset `p` in eve (tabs expand to the
      next multiple of TAB_SIZE). */
  function ColAt(t: seq<char>, p: nat): (c: int)
    requires p <= |t|
    ensures c >= 1
  {
    if p == 0 || t[p - 1] == '\n' then 1 else Advance(ColAt(t, p - 1), t[p - 1])
  }

  /** Within one line the display column strictly grows with the offset. */
  lemma {:induction false} ColAtIncreasing(t: seq<char>, q: nat, p: nat)
    requires q < p <= |t|
    requires forall i :: q <= i < p ==> t[i] != '\n'
    ensures ColAt(t, q) < ColAt(t, p)
    decreases p - q
  {
    if q < p - 1 {
      ColAtIncreasing(t, q, p - 1);
    }
  }

  /** `ColAt` depends only on the text before the offset. */
  lemma {:induction false} ColAtPrefix(t: seq<char>, u: seq<char>, p: nat)
    requires p <= |t| && p <= |u| && t[..p] == u[..p]
    ensures ColAt(t, p) == ColAt(u, p)
  {
    if p > 0 {
      assert t[p - 1] == t[..p][p - 1] == u[..p][p - 1] == u[p - 1];
      assert t[..p - 1] == t[..p][..p - 1] == u[..p][..p - 1] == u[..p - 1];
      ColAtPrefix(t, u, p - 1);
    }
  }

  /** The second loop of `lineColumnToPosition`: walk right from `q` (at
      column `col`) until the line ends or the column reaches `target`.
      Gives the offset and the column reached. */
  function ColumnWalk(t: seq<char>, q: nat, col: int, target: int): (r: (nat, int))
    requires q <= |t| && col >= 1
    ensures q <= r.0 <= |t| && r.1 >= col
    ensures r.0 == |t| || t[r.0] == '\n' || r.1 >= target
    ensures forall i :: q <= i < r.0 ==> t[i] != '\n'
    decreases |t| - q
  {
    if q < |t| && t[q] != '\n' && col < target then ColumnWalk(t, q + 1, Advance(col, t[q]), target)
    else (q, col)
  }

  /** Starting on the line of `p` at the right column, the walk towards
      `ColAt(t, p)` stops exactly at `p`. */
  lemma {:induction false} ColumnWalkReaches(t: seq<char>, q: nat, p: nat)
    requires q <= p <= |t|
    requires forall i :: q <= i < p ==> t[i] != '\n'
    ensures ColumnWalk(t, q, ColAt(t, q), ColAt(t, p)) == (p, ColAt(t, p))
    decreases p - q
  {
    if q < p {
      ColAtIncreasing(t, q, p);
      assert ColAt(t, q + 1) == Advance(ColAt(t, q), t[q]);
      ColumnWalkReaches(t, q + 1, p);
    }
  }

  /** Where eve's `lineColumnToPosition` lands for the requested line `l`
      and preferred column `pc`: (position, line, column). The line is the
      one reached by the first loop; past the last line the position is the
      end of the text while the column stays 1. */
  function LineColumnTarget(t: seq<char>, l: int, pc: int): (r: (nat, int, int))
    ensures r.0 <= |t|
    ensures r.1 == LineAt(t, r.0) && r.2 >= 1
  {
    var s := FindLine(t, l);
    var w := ColumnWalk(t, s, 1, pc);
    LineAtSameLine(t, s, w.0);
    (w.0, LineAt(t, s), w.1)
  }

  /** Round trip (eve): from the line and column of any offset `p`,
      `lineColumnToPosition` returns to `p` with the same line and column. */
  lemma RoundTrip(t: seq<char>, p: nat)
    requires p <= |t|
    ensures LineColumnTarget(t, LineAt(t, p), ColAt(t, p)) == (p, LineAt(t, p), ColAt(t, p))
  {
    var s := LineStart(t, p);
    FindLineOfLineAt(t, p);
    assert ColAt(t, s) == 1;
    ColumnWalkReaches(t, s, p);
    LineAtSameLine(t, s, p);
  }

  /** A requested line past the last one puts the cursor at the end of the
      text, on the last line, with column 1, whatever that offset's real
      column is. */
  lemma TargetPastLastLine(t: seq<char>, l: int, pc: int)
    requires l > LineAt(t, |t|)
    ensures LineColumnTarget(t, l, pc) == (|t|, LineAt(t, |t|), 1)
  {
    FindLinePastEnd(t, l);
  }

  /** On an existing line the result is consistent: the column is the
      offset's display column, the line the requested one, clamped to 1. */
  lemma TargetConsistent(t: seq<char>, l: int, pc: int)
    requires l <= LineAt(t, |t|)
    ensures var r := LineColumnTarget(t, l, pc);
            r.1 == (if l < 1 then 1 else l) && r.2 == ColAt(t, r.0)
  {
    var s := FindLine(t, l);
    if l > 1 {
      FindLineExisting(t, l);
    }
    assert IsLineStart(t, s);
    ColumnWalkFollowsColAt(t, s, 1, pc);
  }

  /** What `lineColumnToPosition` leaves behind: the column is the display
      column of the new offset, except at the end of the text reached from a
      line past the last one, where it is 1. */
  lemma TargetSynced(t: seq<char>, l: int, pc: int)
    ensures var r := LineColumnTarget(t, l, pc);
            r.2 == ColAt(t, r.0) || (r.0 == |t| && r.2 == 1)
  {
    if l <= LineAt(t, |t|) {
      TargetConsistent(t, l, pc);
    } else {
      TargetPastLastLine(t, l, pc);
    }
  }

  /** The walk keeps the column equal to `ColAt` when it starts at a line start. */
  lemma {:induction false} ColumnWalkFollowsColAt(t: seq<char>, q: nat, col: int, target: int)
    requires q <= |t| && col >= 1 && col == ColAt(t, q)
    ensures ColumnWalk(t, q, col, target).1 == ColAt(t, ColumnWalk(t, q, col, target).0)
    decreases |t| - q
  {
    if q < |t| && t[q] != '\n' && col < target {
      ColumnWalkFollowsColAt(t, q + 1, Advance(col, t[q]), target);
    }
  }

  /** The 1-based column of offset `p` in editor.c: one column per character. */
  function PlainColAt(t: seq<char>, p: nat): (c: int)
    requires p <= |t|
    ensures c >= 1
  {
    if p == 0 || t[p - 1] == '\n' then 1 else PlainColAt(t, p - 1) + 1
  }

  /** `PlainColAt` depends only on the text before the offset. */
  lemma {:induction false} PlainColAtPrefix(t: seq<char>, u: seq<char>, p: nat)
    requires p <= |t| && p <= |u| && t[..p] == u[..p]
    ensures PlainColAt(t, p) == PlainColAt(u, p)
  {
    if p > 0 {
      assert t[p - 1] == t[..p][p - 1] == u[..p][p - 1] == u[p - 1];
      assert t[..p - 1] == t[..p][..p - 1] == u[..p][..p - 1] == u[..p - 1];
      PlainColAtPrefix(t, u, p - 1);
    }
  }

  /** Stepping over `k` characters, none a newline, keeps the line and adds
      `k` to editor.c's column. */
  lemma {:induction false} PlainStepOver(t: seq<char>, p: nat, k: nat)
    requires p + k <= |t|
    requires forall i :: p <= i < p + k ==> t[i] != '\n'
    ensures LineAt(t, p + k) == LineAt(t, p) && PlainColAt(t, p + k) == PlainColAt(t, p) + k
  {
    if k > 0 {
      PlainStepOver(t, p, k - 1);
    }
  }

  /** editor.c's column is 1 plus the characters since the line start. */
  lemma {:induction false} PlainColCountsFromLineStart(t: seq<char>, p: nat)
    requires p <= |t|
    ensures PlainColAt(t, p) == p - LineStart(t, p) + 1
  {
    if p > 0 && t[p - 1] != '\n' {
      PlainColCountsFromLineStart(t, p - 1);
      assert LineStart(t, p) == LineStart(t, p - 1);
    }
  }

  /** Lexicographic order on (line, column) pairs. */
  predicate LexBefore(l1: int, c1: int, l2: int, c2: int) {
    l1 < l2 || (l1 == l2 && c1 < c2)
  }

  /** editor.c coordinates strictly increase with the offset. */
  lemma {:induction false} PlainCoordinatesIncrease(t: seq<char>, q: nat, p: nat)
    requires q < p <= |t|
    ensures LexBefore(LineAt(t, q), PlainColAt(t, q), LineAt(t, p), PlainColAt(t, p))
    decreases p - q
  {
    if q < p - 1 {
      PlainCoordinatesIncrease(t, q, p - 1);
    }
  }

  /** No two offsets share editor.c coordinates. */
  lemma PlainCoordinatesUnique(t: seq<char>, p: nat, q: nat)
    requires p <= |t| && q <= |t|
    requires LineAt(t, p) == LineAt(t, q) && PlainColAt(t, p) == PlainColAt(t, q)
    ensures p == q
  {
    if p < q {
      PlainCoordinatesIncrease(t, p, q);
    } else if q < p {
      PlainCoordinatesIncrease(t, q, p);
    }
  }

  /** The loop of editor.c's `lineColumnToPosition` from offset `p`, tracking
      its line `ln` and column `col`, towards the target (`l`, `c`). */
  function PlainWalk(t: seq<char>, p: nat, ln: int, col: int, l: int, c: int): (r: int)
    requires p <= |t| && ln == LineAt(t, p) && col == PlainColAt(t, p)
    ensures r == -1 || (p <= r <= |t| && LineAt(t, r) == l && PlainColAt(t, r) == c)
    decreases |t| - p
  {
    if p < |t| && LexBefore(ln, col, l, c) then
      PlainWalk(t, p + 1, if t[p] == '\n' then ln + 1 else ln, if t[p] == '\n' then 1 else col + 1, l, c)
    else if ln == l && col == c then p
    else -1
  }

  /** editor.c `lineColumnToPosition`: the offset whose coordinates are
      (`l`, `c`), or -1 when no offset has them. */
  function PlainLineColumnToPosition(t: seq<char>, l: int, c: int): (r: int)
    ensures r == -1 || (0 <= r <= |t| && LineAt(t, r) == l && PlainColAt(t, r) == c)
  {
    PlainWalk(t, 0, 1, 1, l, c)
  }

  /** The walk started before `p` at the coordinates of an earlier offset
      reaches `p`. */
  lemma {:induction false} PlainWalkReaches(t: seq<char>, q: nat, p: nat)
    requires q <= p <= |t|
    ensures PlainWalk(t, q, LineAt(t, q), PlainColAt(t, q), LineAt(t, p), PlainColAt(t, p)) == p
    decreases p - q
  {
    if q < p {
      PlainCoordinatesIncrease(t, q, p);
      PlainWalkReaches(t, q + 1, p);
    }
  }

  /** Round trip (editor.c): every offset is found again from its coordinates. */
  lemma PlainRoundTrip(t: seq<char>, p: nat)
    requires p <= |t|
    ensures PlainLineColumnToPosition(t, LineAt(t, p), PlainColAt(t, p)) == p
  {
    PlainWalkReaches(t, 0, p);
  }

  /** -1 exactly when no offset has the requested coordinates. */
  lemma PlainUnreachable(t: seq<char>, l: int, c: int)
    ensures PlainLineColumnToPosition(t, l, c) == -1
        <==> forall p :: 0 <= p <= |t| ==> !(LineAt(t, p) == l && PlainColAt(t, p) == c)
  {
    if PlainLineColumnToPosition(t, l, c) == -1 {
      forall p | 0 <= p <= |t| ensures !(LineAt(t, p) == l && PlainColAt(t, p) == c) {
        if LineAt(t, p) == l && PlainColAt(t, p) == c {
          PlainRoundTrip(t, p);
        }
      }
    } else {
      var r := PlainLineColumnToPosition(t, l, c);
      assert 0 <= r <= |t| && LineAt(t, r) == l && PlainColAt(t, r) == c;
    }
  }
}
