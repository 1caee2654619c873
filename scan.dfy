/** The pointer-walking queries over a NUL-free text shared by both editors
    (eve.cpp:498-557, editor.c:151-183). A C pointer `text + i` is the index
    `i`; the terminator sits at index `|t|`. */
module Scan {
  import opened Chars
  import opened Wrappers

  /** 1 plus the number of newlines in `t[..p]`: the line that offset `p` is on. */
  function LineAt(t: seq<char>, p: nat): (l: int)
    requires p <= |t|
    ensures l >= 1
  {
    if p == 0 then 1 else LineAt(t, p - 1) + (if t[p - 1] == '\n' then 1 else 0)
  }

  /** The counting definition of `LineAt`: 1 plus the multiplicity of '\n'. */
  lemma {:induction false} LineAtCountsNewlines(t: seq<char>, p: nat)
    requires p <= |t|
    ensures LineAt(t, p) == 1 + multiset(t[..p])['\n']
  {
    if p > 0 {
      LineAtCountsNewlines(t, p - 1);
      assert t[..p] == t[..p - 1] + [t[p - 1]];
    }
  }

  lemma {:induction false} LineAtMonotone(t: seq<char>, a: nat, b: nat)
    requires a <= b <= |t|
    ensures LineAt(t, a) <= LineAt(t, b)
    decreases b - a
  {
    if a < b {
      LineAtMonotone(t, a, b - 1);
    }
  }

  /** Offsets with no newline between them are on the same line. */
  lemma {:induction false} LineAtSameLine(t: seq<char>, a: nat, b: nat)
    requires a <= b <= |t|
    requires forall i :: a <= i < b ==> t[i] != '\n'
    ensures LineAt(t, a) == LineAt(t, b)
    decreases b - a
  {
    if a < b {
      LineAtSameLine(t, a, b - 1);
    }
  }

  /** `LineAt` depends only on the text before the offset. */
  lemma {:induction false} LineAtPrefix(t: seq<char>, u: seq<char>, p: nat)
    requires p <= |t| && p <= |u| && t[..p] == u[..p]
    ensures LineAt(t, p) == LineAt(u, p)
  {
    if p > 0 {
      assert t[p - 1] == t[..p][p - 1] == u[..p][p - 1] == u[p - 1];
      assert t[..p - 1] == t[..p][..p - 1] == u[..p][..p - 1] == u[..p - 1];
      LineAtPrefix(t, u, p - 1);
    }
  }

  /** `findChar`: the first offset at or after `p` holding `c`, or the end. */
  function FindChar(t: seq<char>, p: nat, c: char): (r: nat)
    requires p <= |t|
    ensures p <= r <= |t|
    ensures r < |t| ==> t[r] == c
    ensures forall i :: p <= i < r ==> t[i] != c
    decreases |t| - p
  {
    if p == |t| || t[p] == c then p else FindChar(t, p + 1, c)
  }

  /** `findCharBack`: the last offset before `p` holding `c`; if there is
      none, the start of the text (0), which may itself hold `c` or not. */
  function FindCharBack(t: seq<char>, p: nat, c: char): (r: nat)
    requires p <= |t|
    ensures r <= p
    ensures (r < p && t[r] == c) || (r == 0 && forall i :: 0 <= i < p ==> t[i] != c)
    ensures forall i :: r < i < p ==> t[i] != c
  {
    if p == 0 then 0 else if t[p - 1] == c then p - 1 else FindCharBack(t, p - 1, c)
  }

  /** A line start: the text start or just after a newline. */
  predicate IsLineStart(t: seq<char>, p: nat)
    requires p <= |t|
  {
    p == 0 || t[p - 1] == '\n'
  }

  /** The start of the line holding `p`, as eve.cpp computes it at lines
      1015-1017, 892-894 and 1211-1213: `findCharBack` then a step over a
      newline. At offset 0 of a text whose first character is a newline it
      steps past the cursor (see `LineStartAsWrittenOvershoots`). */
  function LineStartAsWritten(t: seq<char>, p: nat): (r: nat)
    requires p <= |t|
    ensures r <= p + 1 && r <= |t|
  {
    var b := FindCharBack(t, p, '\n');
    if At(t, b) == '\n' then b + 1 else b
  }

  /** The start of the line holding `p`: the corrected form of
      `LineStartAsWritten`, which steps over the found character only when it
      lies before `p`. */
  function LineStart(t: seq<char>, p: nat): (r: nat)
    requires p <= |t|
    ensures r <= p && IsLineStart(t, r)
    ensures forall i :: r <= i < p ==> t[i] != '\n'
  {
    var b := FindCharBack(t, p, '\n');
    if b < p && t[b] == '\n' then b + 1 else b
  }

  /** The two agree everywhere except offset 0 before a leading newline. */
  lemma LineStartAsWrittenAgrees(t: seq<char>, p: nat)
    requires p <= |t|
    ensures LineStartAsWritten(t, p) == LineStart(t, p) <==> !(p == 0 && |t| > 0 && t[0] == '\n')
  {
  }

  /** The counterexample: on "\nx" the cursor at offset 0 (line 1) gets the
      "line start" 1, which is on line 2. */
  lemma LineStartAsWrittenOvershoots()
    ensures LineStartAsWritten("\nx", 0) == 1
    ensures LineAt("\nx", 1) == 2 && LineAt("\nx", 0) == 1
    ensures LineStart("\nx", 0) == 0
  {
  }

  /** A line start with the same line number as `p` is the start of `p`'s line. */
  lemma LineStartUnique(t: seq<char>, s: nat, p: nat)
    requires p <= |t| && s <= |t| && IsLineStart(t, s) && LineAt(t, s) == LineAt(t, p)
    ensures s == LineStart(t, p)
  {
    var r := LineStart(t, p);
    LineAtSameLine(t, r, p);
    if s < r {
      LineAtMonotone(t, s, r - 1);
    } else if r < s {
      LineAtMonotone(t, r, s - 1);
    }
  }

  /** The character after the line holding `p` ends: one past its newline,
      or the end of the text. */
  function LineEndAfterNewline(t: seq<char>, p: nat): (r: nat)
    requires p <= |t|
    ensures p <= r <= |t|
    ensures r == |t| || (r > p && t[r - 1] == '\n')
    ensures forall i :: p <= i < r - 1 ==> t[i] != '\n'
    ensures r < |t| ==> LineAt(t, r) == LineAt(t, p) + 1
  {
    var q := FindChar(t, p, '\n');
    if q < |t| then
      LineAtSameLine(t, p, q);
      q + 1
    else q
  }

  /** `wordForward`: one past the first whitespace character at or after `p`
      that is followed by a non-whitespace character; the end if none. */
  function WordForward(t: seq<char>, p: nat): (r: nat)
    requires p <= |t|
    ensures p <= r <= |t|
    ensures r == p <==> p == |t|
    ensures r == |t| || (IsSpace(t[r - 1]) && !IsSpace(t[r]))
    ensures forall i :: p <= i < r - 1 ==> !(IsSpace(t[i]) && !IsSpace(t[i + 1]))
    decreases |t| - p
  {
    if p == |t| then p
    else if IsSpace(t[p]) && !IsSpace(At(t, p + 1)) then p + 1
    else WordForward(t, p + 1)
  }

  /** The scan of `wordBack` from offset `s` downwards. */
  function WordBackFrom(t: seq<char>, s: nat): (r: nat)
    requires s < |t|
    ensures r <= s
    ensures r == 0 || (IsSpace(t[r - 1]) && !IsSpace(t[r]))
    ensures forall i :: r < i <= s ==> !(IsSpace(t[i - 1]) && !IsSpace(t[i]))
  {
    if s == 0 then 0
    else if IsSpace(t[s - 1]) && !IsSpace(t[s]) then s
    else WordBackFrom(t, s - 1)
  }

  /** `wordBack`: the last word start strictly before `p` (an offset whose
      predecessor is whitespace and whose own character is not), or 0. */
  function WordBack(t: seq<char>, p: nat): (r: nat)
    requires p <= |t|
    ensures r <= p && (p > 0 ==> r < p)
    ensures r == 0 || (IsSpace(t[r - 1]) && !IsSpace(t[r]))
    ensures forall i :: r < i < p ==> !(IsSpace(t[i - 1]) && !IsSpace(t[i]))
  {
    if p == 0 then 0 else WordBackFrom(t, p - 1)
  }

  /** The walk of `findLine` from `p` with `n` lines still to count. */
  function FindLineFrom(t: seq<char>, p: nat, n: int): (r: nat)
    requires p <= |t|
    ensures p <= r <= |t|
    ensures n <= 1 ==> r == p
    ensures n > 1 ==> ((LineAt(t, r) - LineAt(t, p) == n - 1 && t[r - 1] == '\n')
                       || (r == |t| && LineAt(t, r) - LineAt(t, p) < n - 1))
    decreases |t| - p
  {
    if p == |t| || n <= 1 then p
    else FindLineFrom(t, p + 1, if t[p] == '\n' then n - 1 else n)
  }

  /** `findLine`: the offset of the first character of line `n` (1-based);
      0 for `n <= 1`, the end of the text when there are fewer than `n` lines. */
  function FindLine(t: seq<char>, n: int): (r: nat)
    ensures r <= |t|
    ensures n <= 1 ==> r == 0
    ensures n > 1 ==> ((LineAt(t, r) == n && IsLineStart(t, r))
                       || (r == |t| && LineAt(t, r) < n))
  {
    FindLineFrom(t, 0, n)
  }

  /** Line `n`, when it exists, starts at `FindLine`. */
  lemma FindLineExisting(t: seq<char>, n: int)
    requires 1 <= n <= LineAt(t, |t|)
    ensures LineAt(t, FindLine(t, n)) == n && IsLineStart(t, FindLine(t, n))
  {
  }

  /** Past the last line `FindLine` gives the end of the text. */
  lemma FindLinePastEnd(t: seq<char>, n: int)
    requires n > LineAt(t, |t|)
    ensures FindLine(t, n) == |t|
  {
    var r := FindLine(t, n);
    LineAtMonotone(t, r, |t|);
  }

  /** `FindLine` of a position's own line number is the start of that line. */
  lemma {:induction false} FindLineOfLineAt(t: seq<char>, p: nat)
    requires p <= |t|
    ensures FindLine(t, LineAt(t, p)) == LineStart(t, p)
  {
    var s := LineStart(t, p);
    var r := FindLine(t, LineAt(t, p));
    LineAtSameLine(t, s, p);
    LineAtMonotone(t, p, |t|);
    if LineAt(t, p) > 1 {
      LineStartUnique(t, r, p);
    } else {
      assert r == 0;
    }
  }

  /** Skipping `m - 1` lines and then `k` more is skipping `m + k - 1`. */
  lemma {:induction false} FindLineFromCompose(t: seq<char>, p: nat, m: int, k: int)
    requires p <= |t| && m >= 1 && k >= 0
    ensures FindLineFrom(t, p, m + k) == FindLineFrom(t, FindLineFrom(t, p, m), k + 1)
    decreases |t| - p
  {
    if m > 1 && p < |t| {
      FindLineFromCompose(t, p + 1, if t[p] == '\n' then m - 1 else m, k);
    }
  }

  /** Skipping one line from `p` moves past the next newline. */
  lemma {:induction false} FindLineFromNext(t: seq<char>, p: nat)
    requires p <= |t|
    ensures FindLineFrom(t, p, 2) == LineEndAfterNewline(t, p)
    decreases |t| - p
  {
    if p < |t| && t[p] != '\n' {
      FindLineFromNext(t, p + 1);
    }
  }

  /** The end of a screen row in `updateScreen` and `redrawScreen`: from
      `p`, somewhere on the line that starts at `p0`, step past that line's
      newline. */
  method StepPastLine(t: seq<char>, ghost p0: nat, p: nat) returns (r: nat)
    requires p0 <= |t| && p0 <= p <= FindChar(t, p0, '\n')
    ensures r == LineEndAfterNewline(t, p0)
  {
    if p < |t| && t[p] == '\n' {
      r := p + 1;
    } else {
      r := FindChar(t, p, '\n');
      if r < |t| && t[r] == '\n' {
        r := r + 1;
      }
    }
  }

  /** Line `n + 1` starts one past the newline that ends line `n`. */
  lemma FindLineNext(t: seq<char>, n: int)
    requires n >= 1
    ensures FindLine(t, n + 1) == LineEndAfterNewline(t, FindLine(t, n))
  {
    FindLineFromCompose(t, 0, n, 1);
    FindLineFromNext(t, FindLine(t, n));
  }

  /** The first offset at or after `p` that does not hold a space or a tab. */
  function SkipBlanks(t: seq<char>, p: nat): (r: nat)
    requires p <= |t|
    ensures p <= r <= |t|
    ensures r < |t| ==> !IsBlank(t[r])
    ensures forall i :: p <= i < r ==> IsBlank(t[i])
    decreases |t| - p
  {
    if p == |t| || !IsBlank(t[p]) then p else SkipBlanks(t, p + 1)
  }

  /** `pat` occurs in `t` at offset `i`. */
  predicate MatchAt(t: seq<char>, i: nat, pat: seq<char>) {
    i + |pat| <= |t| && t[i..i + |pat|] == pat
  }

  /** `strstr(text + from, pat)`: the first occurrence of `pat` at or after
      `from`, if any. The empty pattern matches at `from`. */
  function Search(t: seq<char>, from: nat, pat: seq<char>): (r: Option<nat>)
    requires from <= |t|
    ensures r.Some? ==> from <= r.value && MatchAt(t, r.value, pat)
    ensures forall i :: from <= i && (r.None? || i < r.value) ==> !MatchAt(t, i, pat)
    decreases |t| - from
  {
    if from + |pat| > |t| then None
    else if t[from..from + |pat|] == pat then Some(from)
    else if from == |t| then None
    else Search(t, from + 1, pat)
  }
}
