/** The value types of editor.h with bodies: a screen cell and an
    autocomplete suggestion with its ordering. */
module EditorTypes {

  /** A C `short`. */
  newtype Short = x: int | -0x8000 <= x < 0x8000

  /** `ScreenCell`: a character (a code point, `unichar_t`) and a colour. */
  datatype ScreenCell = ScreenCell(ch: int, color: Short)

  /** The default `ScreenCell`: character 0 in colour 39 (the terminal's
      default foreground). */
  function DefaultCell(): (c: ScreenCell)
    ensures c.ch == 0 && c.color == 39
  {
    ScreenCell(0, 39)
  }

  /** `ScreenCell`'s `operator==`: cells are equal exactly when they are the
      same value. */
  function CellEquals(a: ScreenCell, b: ScreenCell): (r: bool)
    ensures r <==> a == b
  {
    a.ch == b.ch && a.color == b.color
  }

  /** The same character in another colour is another cell. */
  lemma ColourDistinguishes(a: ScreenCell, b: ScreenCell)
    requires a.ch == b.ch && a.color != b.color
    ensures !CellEquals(a, b)
  {
  }

  /** Lexicographic order on strings, character by character, a proper
      prefix first: the comparison `String` is taken to have. */
  function StrLess(a: seq<char>, b: seq<char>): (r: bool)
    ensures |a| == 0 ==> (r <==> |b| > 0)
    ensures |a| > 0 && |b| > 0 && a[0] != b[0] ==> (r <==> a[0] < b[0])
  {
    if |a| == 0 then |b| > 0
    else if |b| == 0 then false
    else if a[0] != b[0] then a[0] < b[0]
    else StrLess(a[1..], b[1..])
  }

  lemma {:induction false} StrLessIrreflexive(a: seq<char>)
    ensures !StrLess(a, a)
  {
    if |a| > 0 {
      StrLessIrreflexive(a[1..]);
    }
  }

  lemma {:induction false} StrLessTransitive(a: seq<char>, b: seq<char>, c: seq<char>)
    requires StrLess(a, b) && StrLess(b, c)
    ensures StrLess(a, c)
  {
    if |a| > 0 && |b| > 0 && |c| > 0 && a[0] == b[0] == c[0] {
      StrLessTransitive(a[1..], b[1..], c[1..]);
    }
  }

  /** Of two different strings exactly one is less. */
  lemma {:induction false} StrLessTotal(a: seq<char>, b: seq<char>)
    requires a != b
    ensures StrLess(a, b) != StrLess(b, a)
  {
    if |a| > 0 && |b| > 0 && a[0] == b[0] {
      assert a == [a[0]] + a[1..] && b == [b[0]] + b[1..];
      StrLessTotal(a[1..], b[1..]);
    }
  }

  /** `AutocompleteSuggestion`: a word and its rank. */
  class Suggestion {
    var word: seq<char>
    var rank: int

    constructor (w: seq<char>, r: int)
      ensures word == w && rank == r
    {
      word, rank := w, r;
    }
  }

  /** The order of `operator<` on (rank, word) values: a higher rank first,
      and among equal ranks the greater word first. */
  function Before(r1: int, w1: seq<char>, r2: int, w2: seq<char>): (b: bool)
    ensures r1 > r2 ==> b
    ensures r1 < r2 ==> !b
    ensures r1 == r2 ==> (b <==> StrLess(w2, w1))
  {
    if r1 > r2 then true
    else if r1 == r2 then StrLess(w2, w1)
    else false
  }

  /** `operator<` on two suggestions. */
  function Less(a: Suggestion, b: Suggestion): (r: bool)
    reads a, b
    ensures a.rank > b.rank ==> r
    ensures a.rank == b.rank ==> (r <==> StrLess(b.word, a.word))
    ensures a.rank < b.rank ==> !r
  {
    Before(a.rank, a.word, b.rank, b.word)
  }

  lemma BeforeIrreflexive(r: int, w: seq<char>)
    ensures !Before(r, w, r, w)
  {
    StrLessIrreflexive(w);
  }

  lemma BeforeAsymmetric(r1: int, w1: seq<char>, r2: int, w2: seq<char>)
    requires Before(r1, w1, r2, w2)
    ensures !Before(r2, w2, r1, w1)
  {
    if r1 == r2 {
      if StrLess(w1, w2) {
        StrLessTransitive(w1, w2, w1);
        StrLessIrreflexive(w1);
      }
    }
  }

  lemma BeforeTransitive(r1: int, w1: seq<char>, r2: int, w2: seq<char>, r3: int, w3: seq<char>)
    requires Before(r1, w1, r2, w2) && Before(r2, w2, r3, w3)
    ensures Before(r1, w1, r3, w3)
  {
    if r1 == r2 == r3 {
      StrLessTransitive(w3, w2, w1);
    }
  }

  /** Of two different (rank, word) pairs exactly one comes first. */
  lemma BeforeTotal(r1: int, w1: seq<char>, r2: int, w2: seq<char>)
    requires (r1, w1) != (r2, w2)
    ensures Before(r1, w1, r2, w2) != Before(r2, w2, r1, w1)
  {
    if r1 == r2 {
      StrLessTotal(w1, w2);
    }
  }

  /** No suggestion precedes itself, and none precedes one that precedes it. */
  lemma LessStrict(a: Suggestion, b: Suggestion)
    ensures !Less(a, a)
    ensures Less(a, b) ==> !Less(b, a)
  {
    BeforeIrreflexive(a.rank, a.word);
    if Less(a, b) {
      BeforeAsymmetric(a.rank, a.word, b.rank, b.word);
    }
  }

  lemma LessTransitive(a: Suggestion, b: Suggestion, c: Suggestion)
    requires Less(a, b) && Less(b, c)
    ensures Less(a, c)
  {
    BeforeTransitive(a.rank, a.word, b.rank, b.word, c.rank, c.word);
  }

  /** Suggestions with different contents are ordered one way or the other. */
  lemma LessTotal(a: Suggestion, b: Suggestion)
    requires a.rank != b.rank || a.word != b.word
    ensures Less(a, b) || Less(b, a)
  {
    BeforeTotal(a.rank, a.word, b.rank, b.word);
  }

  /** `swap`: the two suggestions exchange their words and ranks, so their
      order is reversed. */
  method Swap(a: Suggestion, b: Suggestion)
    modifies a, b
    ensures a.word == old(b.word) && a.rank == old(b.rank)
    ensures b.word == old(a.word) && b.rank == old(a.rank)
    ensures Less(a, b) == old(Less(b, a))
  {
    var w, r := a.word, a.rank;
    a.word, a.rank := b.word, b.rank;
    b.word, b.rank := w, r;
  }
}
