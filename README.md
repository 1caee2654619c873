# eve: a verified model of the editing engine

This project models the text-editing engine of the eve console editor in
Dafny and proves what its operations promise. It covers two editors that
keep a whole file in one NUL-terminated character buffer:

- `eve.cpp`, the single-document editor. Its cursor is an offset
  (`position`) with a derived line and tab-expanded column and a sticky
  preferred column. It has a selection, a clipboard, a search pattern, auto
  indentation and an escape-sequence key decoder.
- `editor.c`, the earlier variant. Its cursor is a line and a column, and
  the offset they stand for is computed on demand and may not exist (-1).
- `editor.h`, of which only the value types with bodies are modelled: the
  screen cell and the ordering of autocomplete suggestions.

The C text buffer is a NUL-free `seq<char>` whose terminator sits, implicitly,
at index `|text|`; a pointer `text + i` is the index `i`. Global editor state
becomes the fields of a class (`Eve.Editor`, `Early.Editor`). The operations
that change it are methods with field-level `modifies` clauses. Loops are
`while` loops proved against pure reference functions (`Scan`, `Columns`,
`View`, `Trim`, `EveText`). The screen is an `array<char>`.

Modules:

| module | file | contents |
|---|---|---|
| `Chars` | chars.dfy | ASCII `ctype` predicates, `isIdent`, reads past the end |
| `Wrappers` | wrappers.dfy | `Option` |
| `Scan` | scan.dfy | `findChar`, `findCharBack`, `findLine`, `wordForward`, `wordBack`, line numbers, substring search |
| `Columns` | columns.dfy | position and line/column mappings of both editors |
| `Splice` | splice.dfy | `insertChars`/`deleteChars` on the text as a value |
| `Trim` | trim.dfy | what `trimTrailingWhitespace` computes |
| `View` | view.dfy | viewport clamp, tab expansion, the reference screen grids, the status row |
| `Keys` | keys.dfy | `readRegularKey`, `readSpecialKey` and the decode loop |
| `EveText` | eve_text.dfy | the pure parts of eve's commands |
| `Eve` | eve.dfy | eve's editor state and commands |
| `Early` | editor_c.dfy | editor.c's editor state and commands |
| `EditorTypes` | editor_types.dfy | `ScreenCell`, `AutocompleteSuggestion` |

## Model

| member | source | states |
|---|---|---|
| Scan.LineAtCountsNewlines | eve.cpp:630-652 | the line of an offset is 1 plus the number of newlines before it |
| Scan.LineAtSameLine | eve.cpp:630-652 | offsets with no newline between them are on the same line |
| Scan.FindChar | eve.cpp:503-509 | the first offset at or after `p` holding `c`, or the end; no earlier one holds `c` |
| Scan.FindCharBack | eve.cpp:511-518 | the last offset before `p` holding `c`, or 0 when none does; nothing between holds `c` |
| Scan.LineStart | eve.cpp:1209-1217 | the start of the cursor's line: a line start at or before `p` with no newline in between |
| Scan.LineStartUnique | eve.cpp:1209-1217 | a line start on the same line as `p` is `LineStart(p)` |
| Scan.LineStartAsWritten | eve.cpp:1211-1213 | the code's `findCharBack` then `++` past a newline: never more than one past `p`, never past the end |
| Scan.LineStartAsWrittenAgrees | eve.cpp:1211-1213 | the code's `findCharBack` plus `++` agrees with the line start except at offset 0 before a newline |
| Scan.LineStartAsWrittenOvershoots | eve.cpp:1211-1213 | on "\nx" at offset 0 the code's line start is 1, on line 2, while the cursor is on line 1 |
| Scan.WordForward | eve.cpp:520-530 | returns `p` only at the end; otherwise a larger offset that is the end or the start of a word, with no word start skipped |
| Scan.WordBack | eve.cpp:532-546 | 0 or an offset before `p` that starts a word, with no word start skipped |
| Scan.FindLine | eve.cpp:548-557 | 0 for `n <= 1`; the start of line `n`; the end when there are fewer lines |
| Scan.FindLineOfLineAt | eve.cpp:548-557 | finding the line of an offset gives that offset's line start |
| Scan.FindLineNext | editor.c:261-268 | line `n + 1` starts just past the newline that ends line `n` |
| Scan.SkipBlanks | eve.cpp:1019-1021 | the first non-blank at or after `p`; everything skipped is a space or a tab |
| Scan.Search | eve.cpp:965-968 | `strstr`: the first match at or after `from`, none before it |
| Columns.NextTab | eve.cpp:643-644 | the next tab stop is past `c`, within `TAB_SIZE`, on a multiple of `TAB_SIZE` plus 1 |
| Columns.ColAtIncreasing | eve.cpp:630-652 | eve's column grows strictly along a line |
| Columns.ColumnWalkReaches | eve.cpp:666-674 | the column walk from a line start towards the column of `p` stops exactly at `p` |
| Columns.RoundTrip | eve.cpp:630-677 | `lineColumnToPosition` after `positionToLineColumn` returns the same offset, line and column |
| Columns.TargetPastLastLine | eve.cpp:658-676 | a line past the last puts the cursor at the end of the text with column 1 |
| Columns.TargetConsistent | eve.cpp:654-677 | for an existing line the result is on that line and its column is the offset's column |
| Columns.TargetSynced | eve.cpp:654-677 | the column is the offset's column, or 1 at the end of the text after a line past the last |
| Columns.PlainColCountsFromLineStart | editor.c:185-204 | editor.c's column is 1 plus the characters since the line start |
| Columns.PlainCoordinatesIncrease | editor.c:185-204 | editor.c coordinates grow strictly, in (line, column) order, with the offset |
| Columns.PlainCoordinatesUnique | editor.c:206-226 | no two offsets have the same coordinates |
| Columns.PlainLineColumnToPosition | editor.c:206-226 | -1 or an offset whose coordinates are the ones asked for |
| Columns.PlainRoundTrip | editor.c:185-226 | every offset is found again from its coordinates |
| Columns.PlainUnreachable | editor.c:220-225 | -1 exactly when no offset has the coordinates asked for |
| Splice.Insert | eve.cpp:559-575 | the text is the old text with `chars` spliced in at `pos`: prefix, `chars`, suffix |
| Splice.Delete | eve.cpp:577-582 | exactly `[pos, pos + len)` is removed; prefix and suffix are kept |
| Splice.DeleteUndoesInsert | editor.c:128-149 | deleting what was inserted restores the text |
| Splice.InsertUndoesDelete | editor.c:128-149 | inserting what was deleted restores the text |
| Trim.TrimmedNoTrailing | eve.cpp:584-618 | after trimming no space or tab precedes a newline or the end |
| Trim.TrimmedKeepsNonBlanks | eve.cpp:584-618 | every character other than a space or a tab is kept, in order |
| Trim.TrimmedClean | eve.cpp:584-618 | a text without trailing blanks is left as it is |
| Trim.TrimmedIdempotent | eve.cpp:584-618 | trimming twice is trimming once |
| Trim.StripEnd | eve.cpp:592-604 | a line without its trailing run of spaces and tabs: the longest prefix that is empty or ends in another character, with only blanks after it |
| Trim.TrimmedLine | eve.cpp:590-614 | trimming goes line by line: a line followed by a newline loses exactly its trailing blanks (`StripEnd`), and the rest of the text is trimmed on its own |
| Trim.TrimmedLastLine | eve.cpp:590-614 | the last line, with no newline after it, loses exactly its trailing blanks |
| Trim.TrimmedKeepsInnerBlank | eve.cpp:605-606 | a blank followed on its line by another character stays: "a b \n" becomes "a b\n" |
| Trim.TrimFromChars | eve.cpp:584-618 | trimming only drops characters: each one left comes from the text |
| Trim.TrimmedNulFree | eve.cpp:584-618 | the trimmed text is NUL-free and no longer than the text |
| View.ClampOrigin | eve.cpp:681-689 | after the clamp the cursor is inside the window; an origin already showing it is kept; it moves only as far as needed |
| View.Window | editor.c:245-260 | columns `left .. left + width - 1` of a line, spaces past its end |
| View.ExpandStep | eve.cpp:697-711 | a tab shows as spaces up to the next tab stop; other characters show as themselves |
| View.ExpandNoTabs | eve.cpp:697-711 | a line without tabs shows as itself |
| View.EveGridCell | eve.cpp:691-724 | eve's grid has `width * height` cells; row `j` is the window over line `top + j` |
| View.PlainGridCell | editor.c:240-269 | editor.c's grid has `width * height` cells; row `j` is the window over line `top + j` |
| View.PlainRowCell | editor.c:245-260 | cell `i` of a row is character `left - 1 + i` of the line, or a space |
| View.RowPastLastLine | editor.c:261-268 | a line past the end of the text shows as a blank row |
| View.DigitsRoundTrip | eve.cpp:728-729 | the decimal digits of `n` read back as `n` |
| View.StatusRow | eve.cpp:726-731 | the status row is `width` cells; "line, column" is right-aligned when it fits, else the row is blank |
| Keys.ReadRegularKey | eve.cpp:216-230 | the key carries the character; tab, newline and DEL get their codes and keep Ctrl and Shift; another control character sets Ctrl and keeps Shift; any other character sets Shift exactly when it is upper case and keeps Ctrl; other codes are kept |
| Keys.ReadSpecialKey | eve.cpp:232-321 | consumes 1 to 4 bytes and changes only the key's code |
| Keys.ArrowKeys | eve.cpp:293-312 | `[A`..`[D` are Up, Down, Right and Left and consume no `~` |
| Keys.HomeInsertKeys | eve.cpp:237-284 | `[1~` and `[2~` are Home and Insert |
| Keys.TildeKeys | eve.cpp:237-318 | after `[` or `O`, `3`..`6` are Delete, End, PgUp and PgDn, and `1` or `2` followed by a byte the `[1`/`[2` tables name as F1..F12 is that key; each consumes one trailing `~` when it follows |
| Keys.UnknownSequence | eve.cpp:313-314 | an unrecognised byte is not consumed and the code is unchanged |
| Keys.DecodeOne | eve.cpp:436-485 | one step of the decode loop consumes at least one byte and stays within the input |
| Keys.DecodeOneCases | eve.cpp:436-485 | a plain byte is one key carrying it, without Alt; ESC ESC followed by neither `[` nor `O` emits nothing; after ESC ESC the key has Alt; a lone ESC at the end is the Esc key; ESC before another byte is that byte with Alt, consuming both |
| Keys.DecodeFrom | eve.cpp:432-490 | no more keys than bytes left from `p` |
| Keys.Decode | eve.cpp:432-490 | no more keys than bytes |
| Keys.DecodeStep | eve.cpp:434-489 | one pass of the loop body consumes at least one byte, and the keys decoded from the start are the key it emits followed by those decoded from where it stops |
| Keys.DecodeKeys | eve.cpp:432-490 | the decode loop returns the keys of the reference decoder |
| Keys.DecodePlainText | eve.cpp:432-490 | bytes without escapes decode to one key per byte, carrying that byte |
| EveText.CopyChars | eve.cpp:620-628 | a NUL-free copy of exactly `[p, q)` |
| EveText.CString | eve.cpp:1143-1149 | the answer up to its first NUL |
| EveText.CopySpan | eve.cpp:885-912 | a span within the text; with a selection, from its lesser end to its greater (see `CopySpanIsLine` for no selection) |
| EveText.CopySpanIsLine | eve.cpp:890-899 | with no selection the span is the cursor's whole line: it starts at a line start with no newline before the cursor, holds no newline but its last character, and ends just past the line's newline or at the end of the text |
| EveText.CopySpanAsWritten | eve.cpp:890-910 | the span as the code computes it, with the code's line start; within the text; with a selection it is `CopySpan` |
| EveText.CopySpanAsWrittenAgrees | eve.cpp:892-894 | the code's span is `CopySpan` except, and only, with no selection at offset 0 before a newline, where it is the empty span (1, 1) |
| EveText.CopySpanAsWrittenEmpty | eve.cpp:892-894 | on "\nx" at offset 0 with no selection the code's span is empty, so Alt+C and Alt+D do nothing, while the cursor's line is offsets 0 to 1 |
| EveText.TypedChars | eve.cpp:1011-1045 | a newline brings the line's leading blanks, a tab `TAB_SIZE` spaces, 0x14 a real tab, any other character itself |
| EveText.TypedCharsAsWritten | eve.cpp:1011-1037 | the characters the code inserts, with the code's line start for a newline: a newline followed by leading blanks; anything but a newline as `TypedChars` |
| EveText.TypedCharsAsWrittenAgrees | eve.cpp:1013-1017 | the code types something other than `TypedChars` exactly for a newline at offset 0 of a text starting with a newline and then a blank; before a newline followed by anything else both type a bare newline |
| EveText.TypedCharsAsWrittenCopiesNextLine | eve.cpp:1015-1027 | on "\n  x" at offset 0 Enter inserts "\n  ", the blanks of line 2, while the cursor's line 1 has none and `TypedChars` inserts "\n" |
| EveText.WordAtCursor | eve.cpp:981-1009 | a word exactly when the cursor is on an identifier character: the maximal identifier run around it |
| EveText.NextMatch | eve.cpp:961-979 | a match other than at the cursor: the first after it, else the first from the start; none when only the cursor's own matches |
| EveText.GrownCapacity | eve.cpp:561-564 | capacity is kept when the text and terminator fit, else grows to hold them |
| Eve.Editor.InsertChars | eve.cpp:559-575 | the text gains `chars` at `pos`, capacity grows as needed, the selection is cleared |
| Eve.Editor.DeleteChars | eve.cpp:577-582 | the text loses `[pos, pos + len)` and the selection is cleared |
| Eve.Editor.constructor | eve.cpp:791-805 | `openFile` and `editor`: the file's text or an empty one, the cursor at offset 0 on line 1 column 1, no selection, clipboard or pattern; the text area is one row shorter than the console; `editor` (eve.cpp:1256-1264) then calls `updateScreen`, so the screen is the grid and status row for the origin clamped around line 1, column 1 |
| Eve.TrimLines | eve.cpp:590-614 | the copy loop, holding back each run of blanks until a character other than a newline commits it, leaves exactly the trimmed text |
| Eve.TrimNewline | eve.cpp:597-604 | at a newline the pending blanks are dropped: the kept output gains the newline alone |
| Eve.Editor.TrimTrailingWhitespace | eve.cpp:584-618 | the in-place compaction leaves exactly the trimmed text and clears the selection |
| Eve.Editor.PositionToLineColumn | eve.cpp:630-652 | line, column and preferred column become those of `position` |
| Eve.WalkToLine | eve.cpp:660-664 | the first loop stops at the start of the line asked for, or the end of the text, on that offset's line |
| Eve.WalkColumns | eve.cpp:666-674 | the second loop is the column walk from the line start towards the preferred column |
| Eve.Editor.LineColumnToPosition | eve.cpp:654-677 | the cursor moves to the target line at the preferred column, or as near as the line allows |
| Eve.NextCell | eve.cpp:701-710 | the cell for column `i` and the offset after it: the line's display from `p` is that cell followed by the display from the new offset |
| Eve.ComposeCells | eve.cpp:697-714 | the cells stored are the line's tab-expanded display, padded with spaces, from column `left`; nothing before them changes |
| Eve.ComposeRow | eve.cpp:697-723 | one row of cells is eve's row for line `n`, and the scan moves on to line `n + 1` |
| Eve.FillRows | eve.cpp:691-724 | the first `width * height` cells are eve's grid from line `top` |
| Scan.StepPastLine | eve.cpp:716-723 | the end of a row steps just past the newline of the row's line, or to the end of the text |
| Eve.Editor.WriteStatus | eve.cpp:726-731 | the cells after the grid become the status row; the grid is kept |
| Eve.Editor.UpdateScreen | eve.cpp:679-731 | the viewport is clamped to the cursor; the screen is the grid followed by the status row |
| Eve.Editor.DeleteWordForward | eve.cpp:859-869 | deletes from the cursor to the next word start; reports whether anything went |
| Eve.Editor.DeleteWordBack | eve.cpp:871-883 | deletes back to the previous word start and moves the cursor there |
| Eve.Editor.DeleteSpan | eve.cpp:921-927 | the cursor goes to the start of the span, then the span is deleted with the cursor's line and column kept valid |
| Eve.Editor.SpanToCopy | eve.cpp:890-912 | the span is `CopySpan` of the text, the cursor and the selection |
| Eve.Editor.TakeSpan | eve.cpp:913-930 | the selection is cleared; a non-empty span goes to the clipboard and, in delete mode, out of the text with the cursor at its start and the result true; otherwise the text and the cursor stay and the result is false |
| Eve.Editor.CopyDeleteText | eve.cpp:885-931 | the span goes to the clipboard when it is non-empty; in delete mode it leaves the text, the cursor goes to its start with line and column recomputed, and the result says whether it was non-empty; copy mode reports false and moves nothing; the selection is cleared |
| Eve.Editor.PasteText | eve.cpp:933-945 | the clipboard is inserted at the cursor and the cursor moves past it |
| Eve.Editor.FindNext | eve.cpp:961-979 | with no pattern or no other match nothing moves; otherwise the cursor moves to `NextMatch` |
| Eve.ScanIdentBack | eve.cpp:988-993 | the backward loop stops at the start of the identifier run |
| Eve.ScanIdentForward | eve.cpp:995-1001 | the forward loop stops at the end of the identifier run |
| Eve.WordAt | eve.cpp:986-1006 | the copied pattern is `WordAtCursor`, NUL-free when the text is |
| Eve.Editor.FindWordAtCursor | eve.cpp:981-1009 | the pattern becomes the word at the cursor, then the next match of it is found |
| Eve.Editor.SaveFile | eve.cpp:807-814 | the text is trimmed and the cursor is put back on its line |
| Eve.Editor.CharsToInsert | eve.cpp:1011-1037 | the characters typed for `c` are `TypedChars`: a newline and the leading blanks of the cursor's line, `TAB_SIZE` spaces for a tab, a tab for 0x14, `c` itself otherwise |
| Eve.Editor.InsertChar | eve.cpp:1011-1045 | the typed characters are inserted at the cursor, the cursor moves past them with line and column recomputed, and clipboard and pattern are kept |
| Eve.Editor.ApplyCtrlKey | eve.cpp:1056-1070 | Ctrl+Right and Ctrl+Left move by words; other Ctrl keys change nothing |
| Eve.Editor.AltDeleteKey | eve.cpp:1073-1080 | Alt+Delete deletes the word after the cursor, Alt+Backspace the word before it |
| Eve.Editor.AltEndKey | eve.cpp:1081-1092 | Alt+Home goes to offset 0 and Alt+End to the end of the text, with line and column recomputed |
| Eve.Editor.AltHalfPageKey | eve.cpp:1093-1107 | Alt+PgUp moves half a screen up, not above line 1; Alt+PgDn half a screen down; the column stays sticky |
| Eve.Editor.AltCommandKey | eve.cpp:1108-1158 | each letter acts as its command says (`CommandDone`): file, clipboard or search; a letter that is no command changes nothing; the editor stops exactly on Q and X; S, B and F ask for a redraw and C, M, Q, X and the other letters do not |
| Eve.Editor.ApplyAltKey | eve.cpp:1071-1158 | the Alt branch: Delete and Backspace delete a word, Home and End jump to either end, PgUp and PgDn move half a screen (`AltMotionDone`), letters act as commands (`CommandDone`); the editor stops exactly on Alt+Q or Alt+X; the redraw answer is `FixedAltRedraw` where that is fixed |
| Eve.Editor.ApplyPlainKey | eve.cpp:1159-1245 | Backspace and Delete edit (`EditDone`); Up, Down, PgUp and PgDn move by lines (`LineMotionDone`); Right, Left, Home and End move the offset (`CursorMotionDone`); any other key is typed exactly when it is typable and otherwise changes nothing; Down, PgUp, PgDn, Home and End always ask for a redraw |
| Eve.Editor.FileCommand | eve.cpp:1108-1138 | Alt+Q quits, Alt+S saves, Alt+X saves and quits, Alt+B saves before the build |
| Eve.Editor.ClipboardCommand | eve.cpp:1122-1142 | Alt+D cuts, Alt+C copies, Alt+P pastes, Alt+M sets the selection mark at the cursor |
| Eve.Editor.SearchCommand | eve.cpp:1143-1158 | Alt+F takes the answer as the pattern, Alt+O the word at the cursor, Alt+N keeps it; each then finds the next match |
| Eve.Editor.EditKey | eve.cpp:1159-1175 | Backspace deletes before the cursor when there is a character there; Delete deletes at the cursor when there is one there |
| Eve.Editor.LineMotionKey | eve.cpp:1176-1239 | Up and Down move a line; PgUp and PgDn move a screen, with the column sticky |
| Eve.Editor.CursorMotionKey | eve.cpp:1191-1224 | Right and Left move one character within the text; Home goes to the line start, End to the line end |
| Eve.Editor.ApplyKey | eve.cpp:1052-1246 | the key acts as its branch of `processKey` says (`KeyDone`: Ctrl, Alt motion, Alt command or plain key); the invariants hold; the editor stops exactly on Alt+Q or Alt+X; the redraw answer is `FixedRedraw` where that is fixed |
| Eve.Editor.ApplyKeyWithFlag | eve.cpp:1072-1156 | one key of the loop: its answer overwrites the flag for word deletion, Alt+D, Alt+C, Alt+P, Alt+O and Alt+N and can only set it for the other keys, so `Answered` holds one key further |
| Eve.Editor.ApplyKeys | eve.cpp:1052-1246 | the keys are applied in order up to the first quit key, each answer respecting `FixedRedraw`; the flag is `Redraw` of the keys and their answers; the loop ends early exactly at a quit key |
| Eve.Editor.ProcessKeys | eve.cpp:1047-1252 | the editor runs on exactly when no key quits; the screen is redrawn exactly when no key quits and `Redraw` holds of the answers; a redraw leaves the screen exactly as composed, otherwise the screen and the viewport are unchanged |
| Eve.RedrawMeans | eve.cpp:1049-1249 | the flag at the end of a batch is set exactly when some key answered true and no later key that assigns the flag answered false |
| Eve.RedrawOverwritten | eve.cpp:1122-1129 | Down, which always redraws, followed by Alt+C, which answers false, leaves the flag clear |
| Early.LineCount | editor.c:171-183 | the line count is 1 plus the number of newlines |
| Early.DeleteCharsAsWritten | editor.c:145-149 | `memmove` of `buf[pos + len .. size]`, the terminator included, down to `pos`: the bytes before `pos` and after the moved ones are kept, and `size` drops by `len` |
| Early.DeleteInsideText | editor.c:145-149 | inside the text the code's `memmove` deletion keeps a C string holding the text minus `[pos, pos + len)` |
| Early.DeleteAtEndAsWritten | editor.c:412-422 | Delete at the end of "a" leaves 'a' in place while `size` drops to 0 |
| Early.TypedBytes | editor.c:312-316 | a tab types four spaces; other bytes type themselves |
| Early.TypedCursorFollows | editor.c:425-437 | after typing a single newline, or a read holding no newline, the cursor stands just past what was typed; a longer read holding a newline is not covered (see "Left out") |
| Early.DeletedCursorStays | editor.c:412-422 | after Delete the cursor stands for the same offset |
| Early.Editor.InsertChars | editor.c:128-143 | the text gains `chars` at `pos`; capacity doubles what is needed when it does not fit |
| Early.Editor.DeleteChars | editor.c:145-149 | the text loses `[pos, pos + len)` |
| Early.Editor.constructor | editor.c:445-481 | `main` and `editor`: the file's text or an empty one, capacity one more than its size, cursor and origin at line 1 column 1, the screen sized to the terminal |
| Early.Editor.PositionToLineColumn | editor.c:185-204 | the line and column of `pos`, or of the end when `pos` is past it |
| Early.Editor.LineColumnToPosition | editor.c:206-226 | the loop returns the offset with the coordinates asked for, or -1 |
| Early.Editor.ControlKey | editor.c:297-329 | ^B goes to line 1 column 1; ^E to the end of the text; Backspace deletes before the cursor when the cursor stands for an offset past 0 |
| Early.Editor.ArrowKey | editor.c:331-374 | Up and Left stop at 1; Down and Right move without looking at the text |
| Early.Editor.PageKey | editor.c:376-411 | PgDn and PgUp move `height` lines (not above 1); Home goes to column 1; End to the end of the cursor's line when the line exists |
| Early.Editor.DeleteKeyPressed | editor.c:412-422 | Delete removes the character the cursor stands on, and nothing at the end |
| Early.Editor.TypeKey | editor.c:425-437 | bytes are inserted only where the cursor stands for an offset; a newline moves to column 1 of the next line, anything else moves the column by its length |
| Early.Editor.KeyEffect | editor.c:292-437 | each command acts as its branch says (`KeyDone`: ^B, ^E, Backspace, the arrows, the page keys, Delete), any other read is typed; without a redraw the text and the cursor are unchanged; only typing changes the capacity |
| Early.Editor.ProcessKey | editor.c:279-443 | ^X stops with the text, the cursor and the screen unchanged; any other read acts as `KeyDone` says; without a redraw the text, the cursor, the viewport and the screen are unchanged; a redraw leaves the screen exactly as composed |
| Early.Editor.Edit | editor.c:445-464 | reads are handled until the first ^X, and at the end the screen is editor.c's grid of the final text and viewport |
| Early.CopyCells | editor.c:254-260 | `width` cells: the line's characters, then spaces |
| Early.ComposeRow | editor.c:245-268 | one row of cells is editor.c's row for line `n`, and the scan moves on to line `n + 1` |
| Early.FillRows | editor.c:240-269 | the screen is editor.c's grid from line `top` |
| Early.Editor.RedrawScreen | editor.c:228-269 | the viewport is clamped to the cursor and the screen is the reference grid |
| Early.SkipColumns | editor.c:245-252 | the scan skips `left - 1` characters, or stops at the line end |
| EditorTypes.DefaultCell | editor.h:15-18 | a fresh cell holds character 0 in colour 39 |
| EditorTypes.CellEquals | editor.h:20-23 | cells are equal exactly when character and colour both are |
| EditorTypes.Less | editor.h:287-295 | a higher rank comes first; for equal ranks the greater word comes first |
| EditorTypes.LessStrict | editor.h:287-295 | no suggestion comes before itself, and of two at most one comes first |
| EditorTypes.LessTransitive | editor.h:287-295 | the order is transitive |
| EditorTypes.LessTotal | editor.h:287-295 | of two suggestions with different contents one comes first |
| EditorTypes.StrLessTotal | editor.h:291-292 | of two different words exactly one is the lesser |
| EditorTypes.Swap | editor.h:281-285 | the two suggestions exchange word and rank, which reverses their order |

## Left out

- Terminal and console I/O is not modelled (raw mode, the terminal size query, cursor and screen writes). The screen is the composed array only; the terminal size comes in as the constructor's parameters.
- File I/O is not modelled. An unreadable file becomes an empty text; the text a save writes is the trimmed text, and the write is left abstract.
- Raw input is not modelled. eve's keys arrive already read as bytes (`Keys.Decode`); editor.c receives one terminal read as `cmd`. The Windows console key path depends on Win32 types and is left out.
- Early.Editor.ProcessKey: editor.c reads into a 10-byte buffer without checking the length, so a longer read overflows it; the model takes a read of any length.
- Texts with NUL bytes are not modelled. Every text, typed byte and clipboard is NUL-free, as the C string functions require.
- eve's command prompt (`getCommand`) and project build (`buildProject`) are not modelled. Alt+F takes the prompt's answer as a parameter, and Alt+B is a save.
- The status line's `sprintf` is the function `FormatInt`, built on decimal digits; there is no other formatting.
- Allocation failure and `abort` are not modelled; allocation succeeds. Capacity is a number, not memory.
- Integers are unbounded; the C `int` has no overflow here. The same goes for `short` colours beyond their newtype.
- Eve.Editor.FindNext: at `position == size` the code searches from one past the terminator, outside the text. The model treats that search as finding nothing.
- Eve.Editor.LineColumnToPosition: when the line asked for is past the last, the code puts the cursor at the end of the text with column 1, which may not be that offset's column. The invariant `Eve.Editor.Valid` admits exactly that case.
- EveText.TypedChars: a newline brings the leading blanks of the cursor's own line (`Scan.LineStart`), not those the code finds with its line start (eve.cpp:1015-1017), which differ at offset 0 before a newline; `EveText.TypedCharsAsWritten` is the code as written (see "Findings").
- Eve.Editor.CharsToInsert: computes `TypedChars`, with the corrected line start, not the code's (see "Findings").
- Eve.Editor.InsertChar: inserts `TypedChars`, with the corrected line start, not the code's (see "Findings").
- EveText.CopySpan: with no selection the span starts at the cursor's own line start, not at the code's (eve.cpp:892-894), which differs at offset 0 before a newline; `EveText.CopySpanAsWritten` is the code as written (see "Findings").
- Eve.Editor.SpanToCopy: computes `CopySpan`, with the corrected line start, not the code's (see "Findings").
- Eve.Editor.CopyDeleteText: copies or cuts `CopySpan`, with the corrected line start, not the code's; the code copies and cuts nothing at offset 0 before a newline (see "Findings").
- Eve.Editor.CursorMotionKey: Home goes to the cursor's own line start (`Scan.LineStart`), not to the code's (eve.cpp:1211-1213), which at offset 0 before a newline is offset 1 on line 2; `Scan.LineStartAsWritten` is the code as written (see "Findings").
- Early.Editor.DeleteKeyPressed: Delete removes a character only when there is one at the cursor; the code also "deletes" at the end of the text, leaving the text in place and `size` one smaller (editor.c:412-422); `Early.DeleteCharsAsWritten` is the code as written (see "Findings").
- Eve.Editor.ProcessKeys: Alt+F's prompt (`getCommand`) reads keys into the same `keys` array that `processKey` is walking (eve.cpp:828 and 1050-1054), and may `realloc` it; the keys after Alt+F in the same batch are then the prompt's keys, or freed memory. The model goes on with the batch's own keys and takes the prompt's answer as a parameter.
- Eve.Editor.ApplyKeys: what each key does is stated per key by `ApplyKey` (`KeyDone`); across the loop the contract states the invariants, the quit key, the answers and the flag, not the composed effect of the keys on the text.
- Early.Editor.Edit: what each read does is stated per read by `ProcessKey` (`KeyDone`); across the loop the contract states the invariant, where the loop stops and the final screen, not the composed effect on the text.
- Early.TypedCursorFollows: a read of several bytes holding a newline, such as a paste of "a\nb", moves the column by the read's length (editor.c:434-435), so the cursor then stands for no offset after the typed bytes; the lemma covers only a single newline or a read without one.
- Eve.Editor.ApplyKey: the one branch per key of `processKey` is split into per-group methods, and the screen update happens once per batch of keys in `Eve.Editor.ProcessKeys`.
- `String` comes from `foundation.h`, which is not part of this model. Its comparison is taken to be lexicographic on characters (`EditorTypes.StrLess`).
- The `Document` and `Editor` classes of editor.h are not modelled, nor the highlighter, the screen differ, autocomplete, history and macros. Only their declarations exist.

## Findings

| source | as written | input that shows it | evidently intended | confidence | as-written member | corrected member |
|---|---|---|---|---|---|---|
| eve.cpp:1211-1213 | the line start is `findCharBack(text, text + position, '\n')` plus one when it lands on a newline | text "\nx", cursor at offset 0 on line 1: the result is offset 1, on line 2 and after the cursor | the start of the cursor's own line, 0 here | not executed | Scan.LineStartAsWrittenOvershoots | Scan.LineStart |
| eve.cpp:892-894 | with no selection the span starts at `findCharBack(text, text + position, '\n')` plus one when it lands on a newline | text "\nx", cursor at offset 0: the span is (1, 1) and is empty, so Alt+C copies nothing and Alt+D cuts nothing | the cursor's line, offsets 0 to 1 | not executed | EveText.CopySpanAsWrittenEmpty | EveText.CopySpan |
| eve.cpp:1015-1017 | a newline copies the leading blanks from `findCharBack(text, text + position, '\n')` plus one when it lands on a newline | text "\n  x", cursor at offset 0, Enter: the code inserts "\n  ", the blanks of line 2 | the blanks of the cursor's line 1, none here, so "\n" | not executed | EveText.TypedCharsAsWrittenCopiesNextLine | EveText.TypedChars |
| editor.c:412-422 | Delete deletes whenever the cursor stands for an offset, the end of the text included | text "a", cursor at line 1 column 2, which stands for offset 1: nothing moves and `size` drops to 0, while 'a' stays before the terminator | delete only when there is a character at the cursor | not executed | Early.DeleteAtEndAsWritten | Early.Editor.DeleteKeyPressed |
