/** eve's decoding of the bytes read from a POSIX terminal into keys
    (eve.cpp:39-77, 216-321, 432-490). The bytes already read are a
    sequence of characters; the terminator the code writes after them is
    implicit, and a NUL byte among them ends the decoding as it does there. */
module Keys {
  import opened Chars
  import opened Wrappers

  datatype KeyCode =
    | KeyNone | KeyEsc | KeyTab | KeyBackspace | KeyEnter
    | KeyUp | KeyDown | KeyLeft | KeyRight
    | KeyInsert | KeyDelete | KeyHome | KeyEnd | KeyPgUp | KeyPgDn
    | KeyF1 | KeyF2 | KeyF3 | KeyF4 | KeyF5 | KeyF6
    | KeyF7 | KeyF8 | KeyF9 | KeyF10 | KeyF11 | KeyF12

  datatype Key = Key(code: KeyCode, ch: char, ctrl: bool, alt: bool, shift: bool)

  /** A default-constructed `Key`. */
  const NoKey: Key := Key(KeyNone, NUL, false, false, false)

  /** `readRegularKey`: a single byte as a key. */
  function ReadRegularKey(c: char, key: Key): (r: Key)
    ensures r.ch == c && r.alt == key.alt
    ensures r.code == (if c == '\t' then KeyTab else if c == '\n' then KeyEnter
                       else if c as int == 0x7f then KeyBackspace else key.code)
    ensures c == '\t' || c == '\n' || c as int == 0x7f ==> r.ctrl == key.ctrl && r.shift == key.shift
    ensures c != '\t' && c != '\n' && c as int != 0x7f ==>
              (r.ctrl <==> key.ctrl || IsCntrl(c)) && r.shift == (if IsCntrl(c) then key.shift else IsUpper(c))
  {
    var k := key.(ch := c);
    if c == '\t' then k.(code := KeyTab)
    else if c == '\n' then k.(code := KeyEnter)
    else if c as int == 0x7f then k.(code := KeyBackspace)
    else if IsCntrl(c) then k.(ctrl := true)
    else k.(shift := IsUpper(c))
  }

  /** The code after "[1" of an escape sequence, if it names one. */
  function CodeAfterOne(c: char): KeyCode {
    match c
    case '1' => KeyF1
    case '2' => KeyF2
    case '3' => KeyF3
    case '4' => KeyF4
    case '5' => KeyF5
    case '7' => KeyF6
    case '8' => KeyF7
    case '9' => KeyF8
    case '~' => KeyHome
    case _ => KeyNone
  }

  /** The code after "[2" of an escape sequence, if it names one. */
  function CodeAfterTwo(c: char): KeyCode {
    match c
    case '0' => KeyF9
    case '1' => KeyF10
    case '3' => KeyF11
    case '4' => KeyF12
    case '~' => KeyInsert
    case _ => KeyNone
  }

  /** The code of a one-byte sequence after "[" (or "O"). */
  function CodeSingle(c: char): KeyCode {
    match c
    case '3' => KeyDelete
    case '4' => KeyEnd
    case '5' => KeyPgUp
    case '6' => KeyPgDn
    case 'A' => KeyUp
    case 'B' => KeyDown
    case 'C' => KeyRight
    case 'D' => KeyLeft
    case _ => KeyNone
  }

  /** `readSpecialKey`: `p` is at the '[' or 'O' after the escape. Returns
      where decoding resumes and the key with its code filled in. The
      arrows, "[1~" and "[2~" take no further '~'; every other code takes one
      optional '~'. An unrecognised byte is left unread and the code unset. */
  function ReadSpecialKey(s: seq<char>, p: nat, key: Key): (r: (nat, Key))
    requires p < |s|
    ensures p + 1 <= r.0 <= |s| && r.0 <= p + 4
    ensures r.1 == key.(code := r.1.code)
  {
    var c := At(s, p + 1);
    if c == '1' || c == '2' then
      var d := At(s, p + 2);
      var code := if c == '1' then CodeAfterOne(d) else CodeAfterTwo(d);
      if code == KeyNone then (p + 2, key)
      else if d == '~' then (p + 3, key.(code := code))
      else (if At(s, p + 3) == '~' then p + 4 else p + 3, key.(code := code))
    else
      var code := CodeSingle(c);
      if code == KeyNone then (p + 1, key)
      else if code in {KeyUp, KeyDown, KeyRight, KeyLeft} then (p + 2, key.(code := code))
      else (if At(s, p + 2) == '~' then p + 3 else p + 2, key.(code := code))
  }

  /** One pass of the decode loop at `p` (which holds a byte other than NUL):
      where the next pass starts, and the key it appends, if any. Two
      escapes followed by anything but '[' or 'O' append nothing. */
  function DecodeOne(s: seq<char>, p: nat): (r: (nat, Option<Key>))
    requires p < |s| && s[p] != NUL
    ensures p < r.0 <= |s|
  {
    if s[p] != ESC then (p + 1, Some(ReadRegularKey(s[p], NoKey)))
    else
      var q := p + 1;
      var c := At(s, q);
      if c == ESC then
        var k := NoKey.(alt := true);
        var d := At(s, q + 1);
        if d == '[' then var r := ReadSpecialKey(s, q + 1, k); (r.0, Some(r.1))
        else if d == 'O' then var r := ReadSpecialKey(s, q + 1, k.(ctrl := true)); (r.0, Some(r.1))
        else (q + 1, None)
      else if c == '[' then var r := ReadSpecialKey(s, q, NoKey); (r.0, Some(r.1))
      else if c == 'O' then var r := ReadSpecialKey(s, q, NoKey.(ctrl := true)); (r.0, Some(r.1))
      else if c != NUL then (q + 1, Some(ReadRegularKey(c, NoKey.(alt := true))))
      else (q, Some(NoKey.(code := KeyEsc)))
  }

  /** What one pass appends: a plain byte is one key carrying it; only two
      escapes not followed by '[' or 'O' append nothing; a second escape
      prefixes Alt; an escape at the end of the bytes is the Esc key; an
      escape before another byte is Alt with that byte. */
  lemma DecodeOneCases(s: seq<char>, p: nat)
    requires p < |s| && s[p] != NUL
    ensures var r := DecodeOne(s, p);
      (s[p] != ESC ==> r.0 == p + 1 && r.1.Some? && r.1.value.ch == s[p] && !r.1.value.alt)
      && (r.1.None? <==> s[p] == ESC && At(s, p + 1) == ESC && At(s, p + 2) != '[' && At(s, p + 2) != 'O')
      && (s[p] == ESC && At(s, p + 1) == ESC && r.1.Some? ==> r.1.value.alt)
      && (s[p] == ESC && At(s, p + 1) == NUL ==> r.1 == Some(NoKey.(code := KeyEsc)))
      && (s[p] == ESC && !(At(s, p + 1) in [ESC, '[', 'O', NUL]) ==>
            r.0 == p + 2 && r.1.Some? && r.1.value.ch == s[p + 1] && r.1.value.alt)
  {
  }

  /** The keys decoded from offset `p` on. */
  function DecodeFrom(s: seq<char>, p: nat): (r: seq<Key>)
    requires p <= |s|
    ensures |r| <= |s| - p
    decreases |s| - p
  {
    if At(s, p) == NUL then []
    else
      var r := DecodeOne(s, p);
      (if r.1.Some? then [r.1.value] else []) + DecodeFrom(s, r.0)
  }

  /** The keys in a batch of bytes read from the terminal. */
  function Decode(s: seq<char>): (r: seq<Key>)
    ensures |r| <= |s|
  {
    DecodeFrom(s, 0)
  }

  /** The decode loop, run over the bytes of one read. */
  method DecodeKeys(s: seq<char>) returns (keys: seq<Key>)
    ensures keys == Decode(s)
  {
    var p := 0;
    keys := [];
    while At(s, p) != NUL
      invariant p <= |s|
      invariant keys + DecodeFrom(s, p) == Decode(s)
      decreases |s| - p
    {
      var q, k := DecodeStep(s, p);
      if k.Some? {
        keys := keys + [k.value];
      }
      p := q;
    }
  }

  /** One pass of the decode loop. */
  method DecodeStep(s: seq<char>, p: nat) returns (q: nat, k: Option<Key>)
    requires p <= |s| && At(s, p) != NUL
    ensures p < q <= |s|
    ensures DecodeFrom(s, p) == (if k.Some? then [k.value] else []) + DecodeFrom(s, q)
  {
    var r := DecodeOne(s, p);
    q, k := r.0, r.1;
  }

  /** Plain text without escapes decodes to one key per byte, carrying that byte. */
  lemma {:induction false} DecodePlainText(s: seq<char>, p: nat)
    requires p <= |s|
    requires forall i :: p <= i < |s| ==> s[i] != NUL && s[i] != ESC
    ensures |DecodeFrom(s, p)| == |s| - p
    ensures forall i :: 0 <= i < |s| - p ==> DecodeFrom(s, p)[i].ch == s[p + i]
    decreases |s| - p
  {
    if p < |s| {
      DecodePlainText(s, p + 1);
    }
  }

  /** The arrows: "[A".."[D" give Up, Down, Right, Left and leave a
      following '~' unread. */
  lemma ArrowKeys(s: seq<char>, p: nat, key: Key)
    requires p + 1 < |s| && s[p + 1] in "ABCD"
    ensures ReadSpecialKey(s, p, key).0 == p + 2
    ensures ReadSpecialKey(s, p, key).1.code ==
      match s[p + 1] case 'A' => KeyUp case 'B' => KeyDown case 'C' => KeyRight case _ => KeyLeft
  {
  }

  /** "[1~" and "[2~" are Home and Insert; the '~' is part of them. */
  lemma HomeInsertKeys(s: seq<char>, p: nat, key: Key)
    requires p + 2 < |s| && s[p + 1] in "12" && s[p + 2] == '~'
    ensures ReadSpecialKey(s, p, key) == (p + 3, key.(code := if s[p + 1] == '1' then KeyHome else KeyInsert))
  {
  }

  /** Every other code takes one optional '~', after "[" as after "O":
      "[3".."[6" are Delete, End, PgUp and PgDn, and "[1" or "[2" followed
      by a byte the tables name (F1 to F12, but not the '~' of Home and
      Insert) is that key. The '~' is consumed when it follows. */
  lemma TildeKeys(s: seq<char>, p: nat, key: Key)
    requires p + 1 < |s|
    ensures var c := s[p + 1];
      c == '3' || c == '4' || c == '5' || c == '6' ==>
        ReadSpecialKey(s, p, key) ==
          (p + 2 + (if At(s, p + 2) == '~' then 1 else 0),
           key.(code := if c == '3' then KeyDelete else if c == '4' then KeyEnd
                        else if c == '5' then KeyPgUp else KeyPgDn))
    ensures var c, d := s[p + 1], At(s, p + 2);
      var code := if c == '1' then CodeAfterOne(d) else CodeAfterTwo(d);
      (c == '1' || c == '2') && code != KeyNone && d != '~' ==>
        ReadSpecialKey(s, p, key) == (p + 3 + (if At(s, p + 3) == '~' then 1 else 0), key.(code := code))
  {
  }

  /** An unrecognised byte is left unread and the key is left as it was. */
  lemma UnknownSequence(s: seq<char>, p: nat, key: Key)
    requires p < |s| && !(At(s, p + 1) in "123456ABCD")
    ensures ReadSpecialKey(s, p, key) == (p + 1, key)
  {
  }
}
