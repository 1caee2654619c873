/** The reference definition of eve's save-time `trimTrailingWhitespace`
    (eve.cpp:584-618) and what it promises. */
module Trim {
  import opened Chars

  /** Trim the rest of the text `s` when the blanks `run` were just read and
      not yet committed: a run is dropped before a newline or the end of the
      text and kept before any other character. */
  function TrimFrom(s: seq<char>, run: seq<char>): seq<char>
  {
    if s == [] then []
    else if IsBlank(s[0]) then TrimFrom(s[1..], run + [s[0]])
    else if s[0] == '\n' then [s[0]] + TrimFrom(s[1..], [])
    else run + [s[0]] + TrimFrom(s[1..], [])
  }

  /** The text with the blanks at the end of every line removed. */
  function Trimmed(s: seq<char>): seq<char>
  {
    TrimFrom(s, [])
  }

  /** No space or tab sits right before a newline or at the end of the text:
      every blank is followed by a character that is not a newline. */
  predicate NoTrailingBlanks(s: seq<char>) {
    forall i :: 0 <= i < |s| && IsBlank(s[i]) ==> i + 1 < |s| && s[i + 1] != '\n'
  }

  /** The characters of `s` other than spaces and tabs, in order. */
  function NonBlanks(s: seq<char>): (r: seq<char>)
    ensures |r| <= |s|
  {
    if s == [] then [] else (if IsBlank(s[0]) then [] else [s[0]]) + NonBlanks(s[1..])
  }

  predicate AllBlank(s: seq<char>) {
    forall i :: 0 <= i < |s| ==> IsBlank(s[i])
  }

  lemma {:induction false} NonBlanksAppend(a: seq<char>, b: seq<char>)
    ensures NonBlanks(a + b) == NonBlanks(a) + NonBlanks(b)
  {
    if a != [] {
      assert (a + b)[1..] == a[1..] + b;
      NonBlanksAppend(a[1..], b);
    } else {
      assert a + b == b;
    }
  }

  lemma {:induction false} NonBlanksOfBlanks(a: seq<char>)
    requires AllBlank(a)
    ensures NonBlanks(a) == []
  {
    if a != [] {
      NonBlanksOfBlanks(a[1..]);
    }
  }

  lemma NoTrailingBlanksAppend(x: seq<char>, y: seq<char>)
    requires NoTrailingBlanks(x) && NoTrailingBlanks(y)
    requires x == [] || !IsBlank(x[|x| - 1])
    ensures NoTrailingBlanks(x + y)
  {
    forall i | 0 <= i < |x + y| && IsBlank((x + y)[i])
      ensures i + 1 < |x + y| && (x + y)[i + 1] != '\n'
    {
      if i >= |x| {
        assert (x + y)[i] == y[i - |x|];
      }
    }
  }

  /** Saving leaves no trailing blanks on any line. */
  lemma {:induction false} TrimFromNoTrailing(s: seq<char>, run: seq<char>)
    requires AllBlank(run)
    ensures NoTrailingBlanks(TrimFrom(s, run))
    decreases |s|
  {
    if s != [] {
      if IsBlank(s[0]) {
        TrimFromNoTrailing(s[1..], run + [s[0]]);
      } else if s[0] == '\n' {
        TrimFromNoTrailing(s[1..], []);
        NoTrailingBlanksAppend([s[0]], TrimFrom(s[1..], []));
      } else {
        TrimFromNoTrailing(s[1..], []);
        var x := run + [s[0]];
        assert NoTrailingBlanks(x) by {
          forall i | 0 <= i < |x| && IsBlank(x[i]) ensures i + 1 < |x| && x[i + 1] != '\n' {
            if i + 1 < |x| - 1 {
              assert IsBlank(x[i + 1]);
            }
          }
        }
        NoTrailingBlanksAppend(x, TrimFrom(s[1..], []));
      }
    }
  }

  lemma TrimmedNoTrailing(s: seq<char>)
    ensures NoTrailingBlanks(Trimmed(s))
  {
    TrimFromNoTrailing(s, []);
  }

  /** Trimming deletes only spaces and tabs: every other character is kept, in order. */
  lemma {:induction false} TrimFromKeepsNonBlanks(s: seq<char>, run: seq<char>)
    requires AllBlank(run)
    ensures NonBlanks(TrimFrom(s, run)) == NonBlanks(s)
    decreases |s|
  {
    if s != [] {
      if IsBlank(s[0]) {
        TrimFromKeepsNonBlanks(s[1..], run + [s[0]]);
      } else {
        TrimFromKeepsNonBlanks(s[1..], []);
        NonBlanksOfBlanks(run);
        NonBlanksAppend(run, [s[0]]);
        NonBlanksAppend(run + [s[0]], TrimFrom(s[1..], []));
        NonBlanksAppend([s[0]], TrimFrom(s[1..], []));
      }
    }
  }

  lemma TrimmedKeepsNonBlanks(s: seq<char>)
    ensures NonBlanks(Trimmed(s)) == NonBlanks(s)
  {
    TrimFromKeepsNonBlanks(s, []);
  }

  /** Trimming deletes only trailing blanks: a text without any is unchanged. */
  lemma {:induction false} TrimFromClean(s: seq<char>, run: seq<char>)
    requires AllBlank(run) && NoTrailingBlanks(run + s)
    ensures TrimFrom(s, run) == run + s
    decreases |s|
  {
    if s != [] {
      var rest := s[1..];
      if IsBlank(s[0]) {
        assert run + [s[0]] + rest == run + s;
        TrimFromClean(rest, run + [s[0]]);
      } else {
        if run != [] {
          assert (run + s)[|run| - 1] == run[|run| - 1] && (run + s)[|run|] == s[0];
        }
        assert NoTrailingBlanks(rest) by {
          forall i | 0 <= i < |rest| && IsBlank(rest[i]) ensures i + 1 < |rest| && rest[i + 1] != '\n' {
            assert (run + s)[|run| + 1 + i] == rest[i];
            assert |run| + 2 + i < |run + s|;
            assert (run + s)[|run| + 2 + i] == rest[i + 1];
          }
        }
        TrimFromClean(rest, []);
        assert [] + rest == rest;
      }
    }
  }

  lemma TrimmedClean(s: seq<char>)
    requires NoTrailingBlanks(s)
    ensures Trimmed(s) == s
  {
    TrimFromClean(s, []);
  }

  /** Saving twice is saving once. */
  lemma TrimmedIdempotent(s: seq<char>)
    ensures Trimmed(Trimmed(s)) == Trimmed(s)
  {
    TrimmedNoTrailing(s);
    TrimmedClean(Trimmed(s));
  }

  /** Trimming keeps the text NUL-free and no longer than it was. */
  lemma {:induction false} TrimFromChars(s: seq<char>, run: seq<char>)
    requires AllBlank(run)
    ensures |TrimFrom(s, run)| <= |run| + |s|
    ensures forall i :: 0 <= i < |TrimFrom(s, run)| ==> TrimFrom(s, run)[i] in run + s
    decreases |s|
  {
    if s != [] {
      if IsBlank(s[0]) {
        TrimFromChars(s[1..], run + [s[0]]);
        assert run + [s[0]] + s[1..] == run + s;
      } else {
        TrimFromChars(s[1..], []);
        var u := TrimFrom(s, run);
        forall i | 0 <= i < |u| ensures u[i] in run + s {
          if s[0] == '\n' {
            if i > 0 {
              assert u[i] == TrimFrom(s[1..], [])[i - 1];
            }
          } else if i > |run| {
            assert u[i] == TrimFrom(s[1..], [])[i - |run| - 1];
          }
        }
      }
    }
  }

  lemma TrimmedNulFree(s: seq<char>)
    requires NulFree(s)
    ensures NulFree(Trimmed(s)) && |Trimmed(s)| <= |s|
  {
    TrimFromChars(s, []);
  }

  /** The end of `s[i..e]` once its trailing run of spaces and tabs is
      dropped: `i`, or just past the last other character. */
  function TrailEnd(s: seq<char>, i: nat, e: nat): (k: nat)
    requires i <= e <= |s|
    ensures i <= k <= e && (k == i || !IsBlank(s[k - 1]))
    ensures forall j :: k <= j < e ==> IsBlank(s[j])
    decreases e - i
  {
    if e == i || !IsBlank(s[e - 1]) then e else TrailEnd(s, i, e - 1)
  }

  /** `w` without its trailing run of spaces and tabs. */
  function StripEnd(w: seq<char>): (r: seq<char>)
    ensures r <= w && AllBlank(w[|r|..])
    ensures r == [] || !IsBlank(r[|r| - 1])
  {
    w[..TrailEnd(w, 0, |w|)]
  }

  /** `TrailEnd` is the only end with its two properties. */
  lemma TrailEndIs(s: seq<char>, i: nat, e: nat, k: nat)
    requires i <= k <= e <= |s| && (k == i || !IsBlank(s[k - 1]))
    requires forall j :: k <= j < e ==> IsBlank(s[j])
    ensures TrailEnd(s, i, e) == k
  {
  }

  /** Where `s[i..e]` ends once stripped, from where `s[i + 1..e]` does. */
  lemma TrailEndStep(s: seq<char>, i: nat, e: nat)
    requires i < e <= |s|
    ensures var k := TrailEnd(s, i + 1, e);
      TrailEnd(s, i, e) == if k > i + 1 then k else if IsBlank(s[i]) then i else i + 1
  {
    var k := TrailEnd(s, i + 1, e);
    TrailEndIs(s, i, e, if k > i + 1 then k else if IsBlank(s[i]) then i else i + 1);
  }

  /** Growing a kept prefix by the next character of `s`. */
  lemma SliceSnoc(run: seq<char>, s: seq<char>, i: nat, k: nat)
    requires i < k <= |s|
    ensures run + [s[i]] + s[i + 1..k] == run + s[i..k]
  {
    assert s[i..k] == [s[i]] + s[i + 1..k];
  }

  /** What trimming keeps of the line `s[i..e]` after the pending blanks
      `run`: the line up to its trailing blanks, with `run` in front, or
      nothing when the line is all blanks. */
  function LineKept(s: seq<char>, i: nat, e: nat, run: seq<char>): seq<char>
    requires i <= e <= |s|
  {
    var k := TrailEnd(s, i, e);
    if k == i then [] else run + s[i..k]
  }

  /** `LineKept` one character at a time, as `TrimFrom` reads them. */
  lemma LineKeptStep(s: seq<char>, i: nat, e: nat, run: seq<char>)
    requires i < e <= |s|
    ensures LineKept(s, i, e, run) ==
      if IsBlank(s[i]) then LineKept(s, i + 1, e, run + [s[i]])
      else run + [s[i]] + LineKept(s, i + 1, e, [])
  {
    TrailEndStep(s, i, e);
    var k := TrailEnd(s, i + 1, e);
    if k > i + 1 {
      SliceSnoc(run, s, i, k);
      assert [] + s[i + 1..k] == s[i + 1..k];
    } else if !IsBlank(s[i]) {
      assert s[i..i + 1] == [s[i]];
      assert run + [s[i]] + [] == run + [s[i]];
    }
  }

  /** No newline in `s[i..e]`. */
  predicate NoNewline(s: seq<char>, i: nat, e: nat)
    requires i <= e <= |s|
  {
    forall j :: i <= j < e ==> s[j] != '\n'
  }

  /** One step of `TrimFrom` at offset `i` of `s`. */
  lemma TrimFromAt(s: seq<char>, i: nat, run: seq<char>)
    requires i < |s|
    ensures TrimFrom(s[i..], run) ==
      if IsBlank(s[i]) then TrimFrom(s[i + 1..], run + [s[i]])
      else if s[i] == '\n' then [s[i]] + TrimFrom(s[i + 1..], [])
      else run + [s[i]] + TrimFrom(s[i + 1..], [])
  {
    assert s[i..][0] == s[i] && s[i..][1..] == s[i + 1..];
  }

  /** The line `s[i..e]` ending in a newline at `e`, after the pending blanks
      `run`: only its trailing run of blanks is dropped, together with `run`
      when nothing else is left on the line; the rest is trimmed from the
      newline on. */
  lemma {:induction false} TrimFromLine(s: seq<char>, i: nat, e: nat, run: seq<char>)
    requires AllBlank(run) && i <= e < |s| && s[e] == '\n' && NoNewline(s, i, e)
    ensures TrimFrom(s[i..], run) == LineKept(s, i, e, run) + TrimFrom(s[e..], [])
    decreases e - i
  {
    if i == e {
      TrimFromAt(s, e, run);
      TrimFromAt(s, e, []);
      assert TrimFrom(s[e..], run) == TrimFrom(s[e..], []);
      assert LineKept(s, i, e, run) == [];
    } else if IsBlank(s[i]) {
      assert NoNewline(s, i + 1, e);
      TrimFromLine(s, i + 1, e, run + [s[i]]);
      TrimFromLineBlank(s, i, e, run, TrimFrom(s[e..], []));
    } else {
      assert s[i] != '\n' && NoNewline(s, i + 1, e);
      TrimFromLine(s, i + 1, e, []);
      TrimFromLineOther(s, i, e, run, TrimFrom(s[e..], []));
    }
  }

  /** The step of `TrimFromLine` over a blank, which joins the pending run. */
  lemma TrimFromLineBlank(s: seq<char>, i: nat, e: nat, run: seq<char>, tail: seq<char>)
    requires i < e <= |s| && IsBlank(s[i])
    requires TrimFrom(s[i + 1..], run + [s[i]]) == LineKept(s, i + 1, e, run + [s[i]]) + tail
    ensures TrimFrom(s[i..], run) == LineKept(s, i, e, run) + tail
  {
    TrimFromAt(s, i, run);
    LineKeptStep(s, i, e, run);
  }

  /** The step of `TrimFromLine` over a character other than a blank or a
      newline, which commits the pending run. */
  lemma TrimFromLineOther(s: seq<char>, i: nat, e: nat, run: seq<char>, tail: seq<char>)
    requires i < e <= |s| && !IsBlank(s[i]) && s[i] != '\n'
    requires TrimFrom(s[i + 1..], []) == LineKept(s, i + 1, e, []) + tail
    ensures TrimFrom(s[i..], run) == LineKept(s, i, e, run) + tail
  {
    TrimFromAt(s, i, run);
    LineKeptStep(s, i, e, run);
    assert run + [s[i]] + (LineKept(s, i + 1, e, []) + tail)
        == run + [s[i]] + LineKept(s, i + 1, e, []) + tail;
  }

  /** The same for the last line `s[i..]`, with no newline after it. */
  lemma {:induction false} TrimFromLastLine(s: seq<char>, i: nat, run: seq<char>)
    requires AllBlank(run) && i <= |s| && NoNewline(s, i, |s|)
    ensures TrimFrom(s[i..], run) == LineKept(s, i, |s|, run)
    decreases |s| - i
  {
    if i == |s| {
      assert s[i..] == [];
    } else if IsBlank(s[i]) {
      TrimFromLastLine(s, i + 1, run + [s[i]]);
      TrimFromLineBlank(s, i, |s|, run, []);
    } else {
      TrimFromLastLine(s, i + 1, []);
      TrimFromLineOther(s, i, |s|, run, []);
    }
  }

  /** Trimming works line by line: each line `w` loses exactly its trailing
      blanks, and blanks followed on their line by another character stay. */
  lemma TrimmedLine(w: seq<char>, rest: seq<char>)
    requires '\n' !in w
    ensures Trimmed(w + ['\n'] + rest) == StripEnd(w) + ['\n'] + Trimmed(rest)
  {
    var s := w + ['\n'] + rest;
    assert forall j :: 0 <= j < |w| ==> s[j] == w[j];
    assert s[|w|] == '\n' && s[0..] == s && s[|w| + 1..] == rest;
    TrimFromLine(s, 0, |w|, []);
    TrimFromAt(s, |w|, []);
    TrailEndPrefix(s, w, |w|);
    var k := TrailEnd(w, 0, |w|);
    assert s[0..k] == w[..k] && [] + s[0..k] == s[0..k];
    var kept, b := LineKept(s, 0, |w|, []), Trimmed(rest);
    assert kept == StripEnd(w);
    calc {
      Trimmed(s);
      TrimFrom(s[0..], []);
      kept + TrimFrom(s[|w|..], []);
      kept + (['\n'] + b);
      kept + ['\n'] + b;
    }
  }

  /** The last line, with no newline after it, loses its trailing blanks only. */
  lemma TrimmedLastLine(w: seq<char>)
    requires '\n' !in w
    ensures Trimmed(w) == StripEnd(w)
  {
    TrimFromLastLine(w, 0, []);
    assert w[0..] == w;
    var k := TrailEnd(w, 0, |w|);
    assert [] + w[0..k] == w[..k];
  }

  /** On "a b \n" only the space before the newline goes; the one between
      the letters stays. */
  lemma TrimmedKeepsInnerBlank()
    ensures Trimmed("a b \n") == "a b\n"
  {
    var w := "a b ";
    assert "a b \n" == w + ['\n'] + [];
    TrimmedLine(w, []);
    assert TrailEnd(w, 0, 4) == 3;
    assert StripEnd(w) == "a b";
  }

  /** `TrailEnd` looks only at the characters before `e`. */
  lemma {:induction false} TrailEndPrefix(s: seq<char>, w: seq<char>, e: nat)
    requires e <= |w| && e <= |s| && forall j :: 0 <= j < e ==> s[j] == w[j]
    ensures TrailEnd(s, 0, e) == TrailEnd(w, 0, e)
    decreases e
  {
    if e > 0 && IsBlank(s[e - 1]) {
      TrailEndPrefix(s, w, e - 1);
    }
  }
}
