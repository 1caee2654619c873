/** The pure parts of eve's editing commands (eve.cpp:620-628, 885-1045):
    which span a copy or delete takes, what a typed character inserts, which
    word the cursor is on and where the next match is. */
module EveText {
  import opened Chars
  import opened Wrappers
  import opened Scan
  import opened Trim

  /** `copyChars`: a fresh string holding `t[p..q]`. */
  function CopyChars(t: seq<char>, p: nat, q: nat): (r: seq<char>)
    requires p <= q <= |t|
    ensures |r| == q - p && forall i :: 0 <= i < |r| ==> r[i] == t[p + i]
    ensures NulFree(t) ==> NulFree(r)
  {
    t[p..q]
  }

  /** The text of a C string: the characters before its first NUL. */
  function CString(s: seq<char>): (r: seq<char>)
    ensures NulFree(r) && r <= s
    ensures |r| < |s| ==> s[|r|] == NUL
  {
    if s == [] || s[0] == NUL then [] else [s[0]] + CString(s[1..])
  }

  /** The span `[start, end)` that `copyDeleteText` copies or deletes: with
      no selection (`sel < 0`) the line holding `pos` with its newline,
      otherwise the text between the selection anchor and `pos`. */
  function CopySpan(t: seq<char>, pos: nat, sel: int): (r: (nat, nat))
    requires pos <= |t| && sel <= |t|
    ensures r.0 <= r.1 <= |t|
    ensures sel >= 0 ==> r == (if sel < pos then (sel, pos) else (pos, sel))
  {
    if sel < 0 then (LineStart(t, pos), LineEndAfterNewline(t, pos))
    else if sel < pos then (sel, pos) else (pos, sel)
  }

  /** With no selection the span is the whole line holding `pos`: it
      starts at a line start with no newline before `pos`, and it ends
      just past the line's newline or at the end of the text. */
  lemma CopySpanIsLine(t: seq<char>, pos: nat, sel: int)
    requires pos <= |t| && sel < 0
    ensures var r := CopySpan(t, pos, sel);
      IsLineStart(t, r.0) && r.0 <= pos <= r.1
      && (r.1 == |t| || (r.1 > pos && t[r.1 - 1] == '\n'))
      && (forall i :: r.0 <= i < r.1 - 1 ==> t[i] != '\n')
      && (forall i :: r.0 <= i < pos ==> t[i] != '\n')
  {
  }

  /** The span as eve.cpp:892-894 computes it, with the line start of
      `LineStartAsWritten`. */
  function CopySpanAsWritten(t: seq<char>, pos: nat, sel: int): (r: (nat, nat))
    requires pos <= |t| && sel <= |t|
    ensures r.1 <= |t|
    ensures sel >= 0 ==> r == CopySpan(t, pos, sel)
  {
    if sel < 0 then (LineStartAsWritten(t, pos), LineEndAfterNewline(t, pos))
    else CopySpan(t, pos, sel)
  }

  /** The written span differs from the corrected one only with no
      selection at offset 0 before a leading newline, and there it is empty,
      so the cut and the copy do nothing. */
  lemma {:induction false} CopySpanAsWrittenAgrees(t: seq<char>, pos: nat, sel: int)
    requires pos <= |t| && sel <= |t|
    ensures CopySpanAsWritten(t, pos, sel) == CopySpan(t, pos, sel)
            <==> !(sel < 0 && pos == 0 && |t| > 0 && t[0] == '\n')
    ensures sel < 0 && pos == 0 && |t| > 0 && t[0] == '\n' ==> CopySpanAsWritten(t, pos, sel) == (1, 1)
  {
    LineStartAsWrittenAgrees(t, pos);
  }

  /** The counterexample: on "\nx" at offset 0 with nothing selected, the
      written span is empty where the cursor's line is "\n". */
  lemma CopySpanAsWrittenEmpty()
    ensures CopySpanAsWritten("\nx", 0, -1) == (1, 1)
    ensures CopySpan("\nx", 0, -1) == (0, 1)
  {
    CopySpanAsWrittenAgrees("\nx", 0, -1);
  }

  /** `ind` is the run of spaces and tabs that opens the line starting at `b`. */
  predicate IsLeadingIndent(t: seq<char>, b: nat, ind: seq<char>) {
    b + |ind| <= |t| && t[b..b + |ind|] == ind && AllBlank(ind)
    && (b + |ind| == |t| || !IsBlank(t[b + |ind|]))
  }

  /** The characters `insertChar` puts in at `pos` for the typed `c`: a
      newline carries the current line's indentation along, a tab becomes
      TAB_SIZE spaces, Ctrl+T a real tab, anything else itself. */
  function TypedChars(t: seq<char>, pos: nat, c: char): (r: seq<char>)
    requires pos <= |t|
    ensures |r| >= 1
    ensures c == '\n' ==> r[0] == '\n' && IsLeadingIndent(t, LineStart(t, pos), r[1..])
    ensures c == '\t' ==> r == Spaces(TAB_SIZE)
    ensures c == REAL_TAB ==> r == ['\t']
    ensures c != '\n' && c != '\t' && c != REAL_TAB ==> r == [c]
    ensures NulFree(t) && c != NUL ==> NulFree(r)
  {
    if c == '\n' then
      var b := LineStart(t, pos);
      var q := SkipBlanks(t, b);
      assert t[b..q][..] == t[b..b + (q - b)];
      ['\n'] + t[b..q]
    else if c == '\t' then Spaces(TAB_SIZE)
    else if c == REAL_TAB then ['\t']
    else [c]
  }

  /** What eve.cpp:1015-1027 inserts for `c`, with the line start of
      `LineStartAsWritten`. */
  function TypedCharsAsWritten(t: seq<char>, pos: nat, c: char): (r: seq<char>)
    requires pos <= |t|
    ensures |r| >= 1
    ensures c == '\n' ==> r[0] == '\n' && IsLeadingIndent(t, LineStartAsWritten(t, pos), r[1..])
    ensures c != '\n' ==> r == TypedChars(t, pos, c)
  {
    if c == '\n' then
      var b := LineStartAsWritten(t, pos);
      var q := SkipBlanks(t, b);
      assert t[b..q][..] == t[b..b + (q - b)];
      ['\n'] + t[b..q]
    else TypedChars(t, pos, c)
  }

  /** The two differ exactly for a newline typed at offset 0 before a
      leading newline followed by a blank, whose indent the code copies from
      line 2; before a leading newline followed by anything else both type
      a bare newline. */
  lemma {:induction false} TypedCharsAsWrittenAgrees(t: seq<char>, pos: nat, c: char)
    requires pos <= |t|
    ensures TypedCharsAsWritten(t, pos, c) != TypedChars(t, pos, c)
            <==> c == '\n' && pos == 0 && |t| > 1 && t[0] == '\n' && IsBlank(t[1])
  {
    LineStartAsWrittenAgrees(t, pos);
    if c == '\n' && pos == 0 && |t| > 0 && t[0] == '\n' {
      assert LineStart(t, 0) == 0 && LineStartAsWritten(t, 0) == 1;
      assert SkipBlanks(t, 0) == 0;
      assert TypedChars(t, pos, c) == ['\n'];
      if |t| > 1 && IsBlank(t[1]) {
        assert SkipBlanks(t, 1) > 1;
        assert |TypedCharsAsWritten(t, pos, c)| > 1;
      } else {
        assert SkipBlanks(t, 1) == 1;
      }
    }
  }

  /** The counterexample: Enter at offset 0 of "\n  x", on the empty first
      line, carries the second line's indent "  " along. */
  lemma TypedCharsAsWrittenCopiesNextLine()
    ensures TypedCharsAsWritten("\n  x", 0, '\n') == "\n  "
    ensures TypedChars("\n  x", 0, '\n') == "\n"
    ensures LineAt("\n  x", 0) == 1 && LineAt("\n  x", 1) == 2
  {
    var t := "\n  x";
    assert LineStartAsWritten(t, 0) == 1 && LineStart(t, 0) == 0;
    assert SkipBlanks(t, 3) == 3 && SkipBlanks(t, 1) == 3;
    assert SkipBlanks(t, 0) == 0;
  }

  /** The start of the identifier run ending at `p`. */
  function IdentStart(t: seq<char>, p: nat): (r: nat)
    requires p <= |t|
    ensures r <= p && (r == 0 || !IsIdent(t[r - 1]))
    ensures forall i :: r <= i < p ==> IsIdent(t[i])
  {
    if p == 0 || !IsIdent(t[p - 1]) then p else IdentStart(t, p - 1)
  }

  /** The end of the identifier run starting at `q`. */
  function IdentEnd(t: seq<char>, q: nat): (r: nat)
    requires q <= |t|
    ensures q <= r <= |t| && (r == |t| || !IsIdent(t[r]))
    ensures forall i :: q <= i < r ==> IsIdent(t[i])
    decreases |t| - q
  {
    if q == |t| || !IsIdent(t[q]) then q else IdentEnd(t, q + 1)
  }

  /** The pattern `findWordAtCursor` searches for: the whole identifier
      under the cursor, or none when the cursor is not on one. */
  function WordAtCursor(t: seq<char>, pos: nat): (r: Option<seq<char>>)
    requires pos <= |t|
    ensures r.Some? <==> pos < |t| && IsIdent(t[pos])
    ensures r.Some? ==> exists s: nat, e: nat :: s <= pos < e <= |t| && r.value == t[s..e]
                          && (s == 0 || !IsIdent(t[s - 1])) && (e == |t| || !IsIdent(t[e]))
                          && forall i :: s <= i < e ==> IsIdent(t[i])
  {
    if pos < |t| && IsIdent(t[pos]) then
      var s, e := IdentStart(t, pos), IdentEnd(t, pos + 1);
      Some(t[s..e])
    else None
  }

  /** Where `findNext` moves for pattern `pat` from `pos`: the first match
      after `pos`, else the first match from the start of the text, unless
      that is `pos` itself. The search after `pos` finds nothing when `pos`
      is the end of the text. */
  function NextMatch(t: seq<char>, pos: nat, pat: seq<char>): (r: Option<nat>)
    requires pos <= |t|
    ensures r.Some? ==> MatchAt(t, r.value, pat) && r.value != pos
    ensures r.Some? && r.value > pos ==> forall i :: pos < i < r.value ==> !MatchAt(t, i, pat)
    ensures r.Some? && r.value < pos ==>
              (forall i :: pos < i ==> !MatchAt(t, i, pat)) && (forall i :: 0 <= i < r.value ==> !MatchAt(t, i, pat))
    ensures r.None? ==> forall i :: 0 <= i && i != pos ==> !MatchAt(t, i, pat)
  {
    var after := if pos < |t| then Search(t, pos + 1, pat) else None;
    var q := if after.Some? then after else Search(t, 0, pat);
    if q.Some? && q.value != pos then q else None
  }

  /** The capacity after making room for `len` more characters: unchanged
      while the text and its terminator fit, otherwise twice what is needed. */
  function GrownCapacity(size: nat, len: nat, capacity: int): (r: int)
    ensures r >= size + len + 1 && r >= capacity
    ensures size + len + 1 <= capacity ==> r == capacity
  {
    var cap := size + len + 1;
    if cap > capacity then cap * 2 else capacity
  }

  /** Whether a plain key inserts its character (eve.cpp:1240-1241). */
  predicate IsTypable(c: char) {
    c == '\n' || c == '\t' || c == REAL_TAB || IsPrint(c)
  }
}
