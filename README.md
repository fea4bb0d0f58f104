# Cursor edit buffer of promptui, in Dafny

This project models the caret-tracking edit buffer of the promptui prompt
library (`cursor.go`). A `Cursor` holds the runes the user typed (`Input`),
a caret (`Position`, the index the caret sits before), a placeholder flag
(`erase`) and a `Pointer`, the marker function that draws the caret. Its
operations place and move the caret, splice text in at the caret, delete the
rune before it, replace the whole buffer, render the buffer with the marker
spliced in (plainly or masked for secrets), and handle one key event from
the line reader.

Files:

- `pointers.dfy` (module `Pointers`): the `Pointer` type and the three stock
  markers (block glyph U+2588, reverse video, pipe).
- `format.dfy` (module `Rendering`): the rendering rule `Format` and the mask
  used for secret input, with the properties of both.
- `editing.dfy` (module `Editing`): the cursor's changing fields as a value
  `State`, one function per operation, the key handler `Listen` as a function,
  whole sessions of key events, and the lemmas about them.
- `cursor.dfy` (module `Cursors`): the `Cursor` class. Its methods update the
  fields in place, as the Go methods do. Each one is proved to leave the fields
  as the matching `Editing` function says.

Every method keeps `0 <= Position <= |Input|`. `Place`, `Move`, `Start`,
`End` and `CorrectPosition` establish it from any starting value.

In placeholder mode a literal key does not replace the placeholder. With
the placeholder `"yes"`, the line `"n"` and a literal key, the buffer becomes
`"nnyes"` with the caret at 2. The line is inserted once when reconciling
(cursor.go:191-194) and again by the default branch (cursor.go:214-216), and
nothing clears `"yes"`. `Editing.PlaceholderTypingExample` proves this result.

## Model

| member | source | states |
|---|---|---|
| `Pointers.DefaultCursor` | cursor.go:9-11 | the default marker draws exactly one U+2588 block glyph, whatever is under the caret |
| `Pointers.BlockCursor` | cursor.go:13-15 | the reverse-video marker is the literal text `\e[7m`, then the input runes unchanged, then `\e[0m` |
| `Pointers.PipeCursor` | cursor.go:17-23 | the pipe marker is one pipe glyph followed by the input runes unchanged |
| `Pointers.StockWrappers` | cursor.go:9-23 | the reverse-video and pipe markers wrap the covered runes between a fixed prefix and suffix; the default marker does not, because it drops the rune |
| `Rendering.Format` | cursor.go:97-113 | the display keeps the input before the caret and the input after the covered rune, and puts the marker's output between them; the marker covers the rune under the caret, or nothing when the caret is at or past the end |
| `Rendering.FormatExamples` | cursor.go:97-113 | an empty buffer renders as `ptr("")`; `"abc"` with the caret at 1 renders as `"a" + ptr("b") + "c"`; three masked runes with the caret at 3 render as `"***" + ptr("")` |
| `Rendering.PipeInsertsBar` | cursor.go:97-113 | with the pipe marker both rendering branches agree: the display is the input with a pipe glyph inserted at the caret |
| `Rendering.DefaultCoversRune` | cursor.go:97-113 | with the default marker, a rune under the caret is replaced by the block glyph and the other runes and the length are kept; at the end one glyph is appended |
| `Rendering.WrappingKeepsInput` | cursor.go:97-113 | with any wrapping marker the display is the input with the prefix inserted at the caret and the suffix inserted after the covered rune |
| `Rendering.BlockCursorRecoversInput` | cursor.go:97-113 | deleting the two escape texts from a reverse-video display gives back the input exactly |
| `Rendering.Mask` | cursor.go:124-127 | the mask is `n` copies of the mask rune |
| `Rendering.MaskHidesInput` | cursor.go:122-129 | every rune of a masked display is the mask rune or a rune that the marker draws for the mask rune or for nothing |
| `Editing.Clamp` | cursor.go:86-94 | the result lies in `[lo, hi]`; it is `x` when `x` is already in range, and otherwise the bound that `x` crossed |
| `Editing.Place` | cursor.go:157-160 | the caret becomes `p` clamped into the range from 0 to the input length; the input and the flag are unchanged |
| `Editing.Move` | cursor.go:163-167 | moving by `shift` is placing at `position + shift` |
| `Editing.Start` | cursor.go:81-83 | the caret goes to 0 and nothing else changes |
| `Editing.End` | cursor.go:75-77 | the caret goes to the input length and nothing else changes |
| `Editing.Update` | cursor.go:133-140 | the runes before the caret are kept, `t` follows them, then come the runes that were after the caret; the caret ends just after `t` |
| `Editing.Replace` | cursor.go:151-154 | the input becomes `t` and the caret is at its end |
| `Editing.Backspace` | cursor.go:173-187 | at caret 0 nothing changes; otherwise the rune before the caret is removed, everything else is kept in order, and the caret steps back one |
| `Editing.Reconcile` | cursor.go:191-194 | a line, when present, is inserted at the caret; no line inserts nothing |
| `Editing.Listen` | cursor.go:190-221 | the new state keeps the caret within the input; the handler says stop exactly for Enter; the placeholder flag is never set |
| `Editing.ListenMoves` | cursor.go:196-212 | in either mode, after reconciliation, the empty key changes nothing, Backward moves the caret back one and keeps the flag, and Forward clears the flag and moves the caret on one |
| `Editing.MoveUndo` | cursor.go:163-167 | a move that stays inside the input is exact, and the opposite move undoes it |
| `Editing.MoveCompose` | cursor.go:163-167 | two moves add up when the first stays inside the input |
| `Editing.UpdateEmpty` | cursor.go:133-140 | inserting nothing leaves the state unchanged |
| `Editing.UpdateConcat` | cursor.go:133-140 | inserting `t` and then `u` equals inserting `t + u` |
| `Editing.TypeThenBackspace` | cursor.go:173-187 | typing one rune and then deleting backwards restores the input and the caret |
| `Editing.BackspaceThenRetype` | cursor.go:173-187 | deleting the rune before the caret and then typing it again restores the input and the caret |
| `Editing.ListenEnter` | cursor.go:198-199 | Enter returns the state after reconciliation, unchanged, and says stop |
| `Editing.ListenNeverSetsErase` | cursor.go:196-218 | the placeholder flag is never set; Backspace, Forward and literal keys clear it; the empty key, Enter and Backward leave it as it was |
| `Editing.ListenEditing` | cursor.go:196-218 | outside placeholder mode, after reconciliation, Backspace deletes backwards, Forward moves +1, Backward moves -1, and other keys change nothing |
| `Editing.ListenPlaceholderBackspace` | cursor.go:200-205 | in placeholder mode Backspace leaves an empty input, caret 0, and leaves placeholder mode |
| `Editing.ListenPlaceholderOther` | cursor.go:213-217 | in placeholder mode a literal key inserts the line twice at the caret, keeps the placeholder text, and leaves placeholder mode |
| `Editing.PlaceholderTypingExample` | cursor.go:213-217 | placeholder `"yes"` with line `"n"` and a literal key gives `"nnyes"` with the caret at 2 |
| `Editing.BackwardExample` | cursor.go:211-212 | `"yes"` with the caret at the end and Backward gives the caret 2 and the same input |
| `Editing.TypeRunes` | cursor.go:133-140 | typing a text one rune at a time keeps the runes before the caret and the runes after it, and leaves the caret after the typed runes |
| `Editing.Backspaces` | cursor.go:173-187 | `n` backspaces step the caret back `n` places, stopping at 0, and keep the flag |
| `Editing.TypeRunesIsUpdate` | cursor.go:133-140 | typing a text one rune at a time gives the same state as inserting it with one update |
| `Editing.BackspacesUndoUpdate` | cursor.go:173-187 | after inserting `w`, pressing backspace once per rune of `w` restores the input and the caret |
| `Editing.Session` | cursor.go:190-221 | feeding events to the listener until one says stop keeps the caret within the input, and a session that starts outside placeholder mode never enters it |
| `Editing.SessionStopsOnEnter` | cursor.go:198-199 | a session stops if and only if one of its events carries Enter |
| `Editing.ArrowsKeepInput` | cursor.go:206-212 | a session of arrow keys with no line never changes the input |
| `Cursors.Cursor.constructor` | cursor.go:54-65 | the input is the starting text and the flag is as requested; the caret is 0 in placeholder mode and at the end otherwise; without a pointer the default marker is used |
| `Cursors.Cursor.End` | cursor.go:75-77 | changes only the caret, and puts it at the end |
| `Cursors.Cursor.Start` | cursor.go:81-83 | changes only the caret, and puts it at 0 |
| `Cursors.Cursor.CorrectPosition` | cursor.go:86-94 | changes only the caret, and clamps its old value into the input |
| `Cursors.Cursor.Format` | cursor.go:116-120 | the display is the rendering of the current input at the current caret with the cursor's marker |
| `Cursors.Cursor.FormatMask` | cursor.go:123-129 | the display is the rendering of as many mask runes as the input has runes, so it depends on the input only through its length; every display rune is the mask rune or a rune the marker draws; the fields are not changed |
| `Cursors.Cursor.Update` | cursor.go:133-140 | changes the input and the caret exactly as `Editing.Update` does |
| `Cursors.Cursor.Get` | cursor.go:143-147 | returns the current input and changes nothing |
| `Cursors.Cursor.Replace` | cursor.go:151-154 | changes the input and the caret exactly as `Editing.Replace` does |
| `Cursors.Cursor.Place` | cursor.go:157-160 | changes only the caret, as `Editing.Place` does |
| `Cursors.Cursor.Move` | cursor.go:163-167 | changes only the caret, as `Editing.Move` does |
| `Cursors.Cursor.Backspace` | cursor.go:173-187 | the truncating branch at the end and the splicing branch in the middle both give `Editing.Backspace` |
| `Cursors.Cursor.Listen` | cursor.go:190-221 | the fields and the continue flag become what `Editing.Listen` gives; the returned runes and position are the new input and caret; the line reader's position is not used |

## Left out

- `String()` (cursor.go:67-71): debug text built with `fmt.Sprintf`.
- Key codes: the values of `KeyEnter`, `KeyBackspace`, `KeyForward` and `KeyBackward` are defined in files that are not part of this model. Keys are the datatype `Editing.Key`, with `Empty` for key 0 and `Other` for every other rune.
- Text encoding: strings are sequences of code points. The UTF-8 conversions `[]rune(s)` and `string(r)` are identities here.
- `Cursors.Cursor.constructor`: Go first sets the caret to the byte length of the starting text. The model uses the rune count instead. `Start` or `End` overwrites that value in both cases.
- Go slices: aliasing and capacity effects of `append(a[:i], ...)` in `Update` and `Backspace` are not modelled. Inputs are value sequences.
- `Cursors.Cursor.Update`, `Cursors.Cursor.Backspace`, `Cursors.Cursor.Listen`: these require `0 <= Position <= |Input|`. Every operation keeps that invariant. A client that writes the exported `Position` field, or shortens the exported `Input` field, can break it. Go then may panic when `Update` or `Backspace` slices the input. `Listen` slices only through those two calls, so with no line and key 0, Enter, Forward or Backward, with no line and a literal key outside placeholder mode, and with no line and Backspace in placeholder mode, Go clamps or returns the out-of-range caret instead; the model does not cover those calls.
- `Editing.Move`: Go adds `Position + shift` in the machine-width `int`, and that addition wraps at the largest shifts (with caret 1 in `"abc"`, a shift of the largest `int` wraps to a negative value and ends at caret 0). The model adds unbounded integers and ends at 3 there. The cursor's own calls move by ±1 or by the length of an inserted text and never reach the wrap.
- `Cursors.Cursor.Move`: the same unbounded addition as `Editing.Move`; the fixed-width wrap is not modelled.
- `Cursors.Cursor.Format`, `Cursors.Cursor.FormatMask`: these require `Position >= 0`, because Go panics when slicing at a negative index.
- `BlockCursor` builds its text with `fmt.Sprintf`. The model uses plain concatenation of the same literal texts.
- Pointers are total functions on rune sequences. A user marker that panics or has side effects is outside the model. In particular `format` hands the marker `a[i : i+1]` without copying it (cursor.go:103), so in Go a marker that appends to its argument overwrites `Input[i+1]` and the display shows the overwritten rune; the model's markers receive a value and cannot do that.
- Terminal rendering and the meaning of escape codes are not modelled.
