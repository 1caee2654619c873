/** The buffer splices behind `insertChars`/`deleteChars` of both editors
    (eve.cpp:559-582, editor.c:128-149), on the text as a value. */
module Splice {

  /** The text with `chars` inserted at `pos`. */
  function Insert(t: seq<char>, pos: nat, chars: seq<char>): (r: seq<char>)
    requires pos <= |t|
    ensures |r| == |t| + |chars|
    ensures r[..pos] == t[..pos]
    ensures r[pos..pos + |chars|] == chars
    ensures r[pos + |chars|..] == t[pos..]
  {
    t[..pos] + chars + t[pos..]
  }

  /** The text with `[pos, pos + len)` removed. */
  function Delete(t: seq<char>, pos: nat, len: nat): (r: seq<char>)
    requires pos + len <= |t|
    ensures |r| == |t| - len
    ensures r[..pos] == t[..pos]
    ensures r[pos..] == t[pos + len..]
  {
    t[..pos] + t[pos + len..]
  }

  /** Deleting what was just inserted restores the text. */
  lemma DeleteUndoesInsert(t: seq<char>, pos: nat, chars: seq<char>)
    requires pos <= |t|
    ensures Delete(Insert(t, pos, chars), pos, |chars|) == t
  {
    var u := Insert(t, pos, chars);
    assert u[pos + |chars|..] == t[pos..];
    assert t == t[..pos] + t[pos..];
  }

  /** Inserting what was just deleted restores the text. */
  lemma InsertUndoesDelete(t: seq<char>, pos: nat, len: nat)
    requires pos + len <= |t|
    ensures Insert(Delete(t, pos, len), pos, t[pos..pos + len]) == t
  {
    var d := Delete(t, pos, len);
    assert d[..pos] == t[..pos] && d[pos..] == t[pos + len..];
    assert t == t[..pos] + t[pos..pos + len] + t[pos + len..];
  }
}
