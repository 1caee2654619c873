/** Fixed ASCII versions of the C `ctype` predicates the editors use, and the
    constants shared by both editors. */
module Chars {

  /** The C string terminator. */
  const NUL: char := 0 as char

  /** Width of a tab stop in columns. */
  const TAB_SIZE: int := 4

  /** Ctrl+T: the key that inserts a real tab character. */
  const REAL_TAB: char := 0x14 as char

  /** Escape, the first byte of every terminal key sequence. */
  const ESC: char := 0x1b as char

  /** `isspace`: space, tab, newline, vertical tab, form feed, carriage return. */
  predicate IsSpace(c: char) {
    c == ' ' || (9 <= c as int <= 13)
  }

  predicate IsDigit(c: char) { '0' <= c <= '9' }

  /** `isupper` in the C locale. */
  predicate IsUpper(c: char) { 'A' <= c <= 'Z' }

  predicate IsLower(c: char) { 'a' <= c <= 'z' }

  /** `isalnum` in the C locale. */
  predicate IsAlnum(c: char) { IsDigit(c) || IsUpper(c) || IsLower(c) }

  /** `iscntrl` in the C locale: 0..31 and DEL. */
  predicate IsCntrl(c: char) { c as int < 32 || c as int == 127 }

  /** `isprint` in the C locale: space through tilde. */
  predicate IsPrint(c: char) { 32 <= c as int <= 126 }

  /** `isIdent` (eve.cpp): a character that may appear in an identifier. */
  predicate IsIdent(c: char) { IsAlnum(c) || c == '_' }

  /** The whitespace that auto-indent copies and that saving trims. */
  predicate IsBlank(c: char) { c == ' ' || c == '\t' }

  /** A text with no embedded terminator, so that `strlen` is its length. */
  predicate NulFree(s: seq<char>) {
    forall i :: 0 <= i < |s| ==> s[i] != NUL
  }

  /** The character a C pointer to index `i` reads: past the end it reads the terminator. */
  function At(s: seq<char>, i: int): (c: char)
    ensures 0 <= i < |s| ==> c == s[i]
  {
    if 0 <= i < |s| then s[i] else NUL
  }

  /** `n` space characters. */
  function Spaces(n: nat): (r: seq<char>)
    ensures |r| == n
    ensures forall i :: 0 <= i < n ==> r[i] == ' '
  {
    seq(n, _ => ' ')
  }
}
