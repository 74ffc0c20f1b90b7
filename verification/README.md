# A verified model of the shell, its page kernel and its terminal protocols

This project models the stateful cores of a browser shell: the wrapping line editor and the terminal it draws
on, the sed engine, the mosh screen tracker, the splitters of terminal input, the page's pipes, snapshots,
loopback network and WebSocket codec, the incremental persistence of the filesystem, the queue of typed input,
the full-screen editor and pictures sent in pieces. `dafny verify dfyconfig.toml` checks all of it.

## How it is laid out

| file | models |
|---|---|
| Terminal.dfy | the terminal: a grid, a cursor, the deferred wrap, and the control functions the editor writes |
| Cells.dfy, Prompt.dfy, Display.dfy, Line.dfy, Keys.dfy, LineEditor.dfy | the line editor: cell arithmetic, what a prompt draws, what each echoed text shows, what the keys do and what that means, and the object that joins them |
| Utf8.dfy, Completion.dfy, Hosts.dfy | runes and their bytes, what Tab adds, and the page and the console that own the editor |
| SedInput.dfy, SedRange.dfy, SedParse.dfy, SedExec.dfy, SedRegex.dfy | sed: input and output, ranges, flattening, execution, translation of expressions |
| SedCommands.dfy, SedScripts.dfy | what each of its commands means, and well-known scripts over any input |
| MoshScreen.dfy | the tracker of numbered screen states |
| EventFilter.dfy, EventSplit.dfy, EventWhole.dfy | the filter of events in the input, when reads do not matter to it, and what it sees |
| Probe.dfy, ProbeAnswers.dfy | the probe with its hand-over, and the answers it takes out |
| Pipes.dfy, Snapshot.dfy, Vnet.dfy, WebSocket.dfy | the page's kernel |
| Persist.dfy, Stdin.dfy | the sync against a key/value store; typed input |
| Edit.dfy, Kitty.dfy | the full-screen editor; base64 pieces |

Objects that update fields are classes, loops are methods with invariants, and each is proved equal to a
function of its old state; what the program promises is then proved of those functions over every input, run or
interleaving. Concurrency (the probe) is a state machine whose steps may interleave in any way.

Host callbacks, failures of writes and reads, the growth of a Go slice, the order of map iteration, regular
expression matching, screen emulation and rune widths are parameters or arbitrary choices, with the laws a proof
needs stated as preconditions (`Geometry.Valid`, `HostValid`, `Env.Valid`, `Laws`).

## Where the code does not do what it is for

For each of these a lemma says exactly when it happens.

- Answering Ctrl+D with a new prompt while the cursor counts as settled shows the line wrongly exactly when that
  prompt ends at the right edge (`LineEditor.EofNeedsRoom`; web/session.go:263).
- A prompt that comes after runes were taken since Enter, as with a paste, does not show them: it is right exactly when
  none were, or they leave a blank line with the cursor at its start and the prompt does not fill its last row
  (`LineEditor.LatePrompt`, `LineEditor.PasteIsLost`; web/session.go:261 and 417-470, console/console.go:242-267).
- The prompt of a queued line is written beside the one before exactly when its command wrote nothing
  (`Hosts.QueuedAnswer`; web/session.go:469).
- Of several lines submitted from one read the console runs the last only (`Hosts.ConsoleRunsAll`,
  `Hosts.ConsolePaste`; console/console.go:138).
- Completion trims candidates by bytes: it adds something else than the runes they have in common exactly when they
  go on with different runes that begin with the same byte (`Completion.AddsCommonRunes`, `Completion.HalfARune`;
  shell/editor.go:408-417).
- RE2 reads a translated expression otherwise exactly when an escaped delimiter is in a bracket, as in `s/[^\/]*/X/`,
  repetitions are stacked, an interval has bounds RE2 does not take, or in a basic expression a leading `^` is doubled
  or a `$` stands before a delimiter `)` or `|` that is escaped (`SedRegex.ReadsTheSame`, `SedRegex.ReadOtherwise`;
  shell/sed/regex.go:80-88 and 121-178).
- A diff that does not decode has already moved the tracker's shadow, and one whose base is not there is applied to
  a blank screen; the tracker stays true exactly when the base shows the same as what the shadow is numbered by, and
  when the server's base was blank (`MoshScreen.FailedDecode`, `MoshScreen.UnknownBase`; shell/mosh/screen.go:69-82).
- The keys and events of an input depend on how it is read exactly when a read ends one or two bytes into an event
  (`EventSplit.ReadsAsWhole`; progressive/events.go:160-169).
- A pipe read of no bytes is answered as if at the end while bytes are queued (`Pipes.NothingMeansTheEnd`).
- An excluded path is lost in a restore exactly when something above it was saved as a non-directory
  (`Snapshot.ExcludedIsKept`).
- End-of-file on a loopback connection is undone by a send of the side that closed (`Vnet.EofUndone`,
  `Vnet.EofNeedNotStay`).
- Of a 64-bit WebSocket length only the low half is read (`WebSocket.LengthIsRead`).
- A file that changed and could not be read makes the signatures forget what is stored, and records without a
  file at the baseline are never deleted (`Persist.TracksIfReadable`, `Persist.BaselineTracks`).
- A change of mode alone is not written, as the signature does not have it: a round converges exactly when equal
  signatures mean equal records (`Persist.ModeIsNotSeen`, `Persist.SuccessConverges`; cmd/websh/persist.go:147-165).
- When the write of a changed file fails, its old record is deleted in the same round, if that succeeds
  (`Persist.LosesRecord`; cmd/websh/persist.go:180-199).
- A broken multi-byte sequence can put a newline rune inside a line of the full-screen editor, which then reloads
  as two and which some keys do not take for the end of a line (`Edit.ReloadGivesTheSame`, `Edit.KeyEdits`;
  shell/edit.go:258-279).
- A picture whose bytes before the last piece pass the limit is given up, and its later pieces then end as a
  picture under no keys (`Kitty.PictureArrives`, `Kitty.LaterPieces`; web/images.go:144-148).

## Model

| member | source | states |
|---|---|---|
| Terminal.ReplayControl | shell/cells.go:103-116 | an ECMA-48 control sequence with a decimal parameter does to the terminal what the control function says, whatever the number |
| Terminal.ClearTextIsFresh | console/console.go:141-145 | the clear-screen text leaves a fresh row whatever was on the screen |
| Cells.WriteText | shell/cells.go:79-101 | writing printable text puts the terminal cursor where `advance` has it (or leaves the wrap pending there) and paints exactly the layout, with nothing below |
| Cells.FilledIsPending | shell/cells.go:79-101 | text that fills its last row leaves the wrap pending |
| Cells.SpaceReturn | shell/editor.go:120-131 | at a filled row, a space and a carriage return take the next row, deferred wrap or not, and draw nothing |
| Cells.ReplayMoveCursor | shell/cells.go:103-116 | the sequence `moveCursor` writes moves the cursor from one cell to the other and nothing else |
| Cells.EraseUndoesPaint | shell/editor.go:168-177 | erasing from where a layout was painted gives back what was there before it |
| Cells.PaintShows | shell/editor.go:98-112 | every rune of a painted layout is in its slot, a wide one with its right half; a blank shows nothing |
| Cells.PaintOnly | shell/editor.go:98-112 | nothing else is shown: a cell that shows something is half of some rune of the layout |
| Cells.PaintKeeps | shell/editor.go:98-112 | painting leaves what lies before the layout alone |
| Prompt.SkipEscape | shell/cells.go:47-77 | the index loop ends at the end of the escape sequence, for CSI, string and intermediate forms and for cut-off ones |
| Prompt.EscapeMeans | shell/cells.go:47-77 | where control sequences, control strings and other sequences end, cut-off ones included (sections 5.3 to 5.6 of ECMA-48) |
| Prompt.RuneCells | shell/cells.go:26-45 | a rune outside sequences takes cells if it is a newline or no control |
| Prompt.ComputePromptCells | shell/cells.go:26-45 | the loop keeps exactly what takes cells |
| Prompt.PieceCells | shell/cells.go:17-45 | text, a colour or a title adds its own cells to the prompt, marked or not |
| Prompt.ReplayCore | shell/cells.go:47-77 | what `promptCells` leaves out of a colour or title draws nothing on the terminal |
| Prompt.PiecesAreHonest | shell/cells.go:17-77 | a prompt made of text, colours and titles is drawn on the terminal as its cells |
| Display.Settled | shell/editor.go:120-131 | after `settle` the drawing is the same and the terminal cursor is the one of the layout |
| Display.TailShows | shell/editor.go:133-145 | after `tail` the screen shows prompt and line with the cursor at its place, no wrap pending |
| Display.AppendShows | shell/editor.go:308-326 | runes appended at the end of the line show the longer line |
| Display.RedrawShows | shell/editor.go:168-187 | drawing again replaces any line and cursor by any other |
| Display.EraseIsFresh | shell/editor.go:168-177 | going to the first row, `\r` and ED leave the screen as it was before the prompt |
| Display.NewLineIsFresh | shell/editor.go:235-244 | `\r\n` after the text goes to a fresh row below everything drawn |
| Display.PromptOnFreshRow | shell/editor.go:149-157 | a prompt written on a fresh row is where the layout assumes it |
| Line.TypingInserts | shell/editor.go:308-326 | typed text goes in at the cursor whole and in order |
| Line.BackspacesUndoTyping | shell/editor.go:209-306 | as many backspaces as runes typed give the line and cursor back |
| Line.WordIsErased | shell/editor.go:209-306 | Ctrl+W takes the word before the cursor with the blanks after it, and nothing before it |
| Line.HistoryRoundTrip | shell/editor.go:328-352 | n times up and n times down give the fresh line back |
| Keys.EnterHandsOver | shell/editor.go:235-244 | Enter hands over the whole line, wherever the cursor is, and the next starts empty |
| Keys.OnlyEnterSubmits | shell/editor.go:209-306 | and no other rune submits anything, answers a line or touches the history |
| Keys.MovesMean | shell/editor.go:275-278 | home and end: what is before and after the cursor |
| Keys.DeletesMean | shell/editor.go:245-285 | backspace, Ctrl+U, Ctrl+K and Ctrl+C: what is left before and after the cursor |
| Keys.WordMeans | shell/editor.go:286-297 | Ctrl+W takes the blanks before the cursor and the word before them, and nothing before the word |
| Keys.OtherRunesMean | shell/editor.go:302-305 | any other rune is typed at the cursor, or does nothing |
| Keys.WholeSequence | shell/editor.go:213-231 | a whole escape sequence, with any parameters and either introducer, is acted on at its end |
| Keys.SequenceMeans | shell/editor.go:353-380 | right, left, home, end and delete by what is before and after the cursor; any other sequence does nothing |
| Keys.ArrowsMean | shell/editor.go:330-352 | up and down: the line shown, its place in the history, and the line that was being edited |
| Keys.UpRecalls | shell/editor.go:69-79 | a line submitted and remembered is what Up shows next; the history grows by it unless it is the last already |
| Keys.NotRecalled | shell/editor.go:69-79 | an empty line, and one that is not remembered, leave the history as it is |
| Keys.TabMeans | shell/editor.go:383-417 | Tab completes the word before the cursor, the owner being told whether only white space comes before it, and leaves what is after |
| Keys.TabOneCandidate | shell/editor.go:399-406 | one candidate stands there then, with a blank after it unless it ends in a slash |
| Keys.TabCandidates | shell/editor.go:408-417 | of several, the runes they all begin with and a replacement rune for each further byte in common |
| Completion.CommonShortens | shell/editor.go:408-413 | shortening a candidate by its last byte does not lose the start it has in common with another |
| Completion.CommonAllIsLongest | shell/editor.go:408-413 | nothing longer than the common start begins every candidate, and what begins every one is a start of it |
| Completion.BytesInCommon | shell/editor.go:408-413 | the bytes in common are those of the runes in common and, exactly when all candidates go on with runes of the same first byte, the start of one more |
| Completion.AddsRunes | shell/editor.go:408-417 | several candidates add the runes they have in common and a replacement rune for every further byte in common |
| Completion.AddsCommonRunes | shell/editor.go:408-417 | they add just the runes in common exactly when the candidates do not go on with different runes of the same first byte |
| Completion.HalfARune | shell/editor.go:408-417 | for the names é and è a replacement rune goes into the line |
| Utf8.PrefixFree | shell/editor.go:417 | no rune's bytes begin with another's |
| Utf8.FirstMeans | shell/editor.go:416 | decoding takes the character the bytes begin with, and one byte as a replacement where they begin with none |
| Utf8.DecodeEncoded | shell/editor.go:417 | decoding undoes encoding, whatever bytes follow (section 3 of RFC 3629) |
| Utf8.DecodePartial | shell/editor.go:417 | a rune cut short decodes to a replacement rune for each byte left of it |
| Line.RunAppend | shell/editor.go:209-306 | input in two parts is input at once |
| LineEditor.LineEditor.constructor | shell/editor.go:57-66 | a new editor whose owner wrote the prompt on a fresh row shows it |
| LineEditor.LineEditor.Layout | shell/editor.go:98-112 | the loop gives the cell before each rune and after the last |
| LineEditor.LineEditor.Settle | shell/editor.go:120-131 | keeps the invariant and makes the cursor settled; the content stays |
| LineEditor.LineEditor.ComputeTail | shell/editor.go:133-145 | the text `tail` writes, of which Display.TailShows says what it shows |
| LineEditor.LineEditor.Refresh | shell/editor.go:168-177 | from any old content and cursor, the new content is shown |
| LineEditor.LineEditor.Change | shell/editor.go:179-187 | the content becomes the new one and the screen shows it |
| LineEditor.LineEditor.MoveTo | shell/editor.go:189-201 | the cursor moves, the line stays, the screen follows |
| LineEditor.LineEditor.Insert | shell/editor.go:308-326 | runes go in at the cursor and the screen follows |
| LineEditor.LineEditor.HandleCSI | shell/editor.go:328-380 | every escape sequence does its edit or move and the screen follows |
| LineEditor.LineEditor.History | shell/editor.go:328-352 | history up and down, with the fresh line kept, and the screen follows |
| LineEditor.LineEditor.WordBack | shell/editor.go:209-306 | the loop of Ctrl+W stops at the start of the word before the blanks |
| LineEditor.LineEditor.LongestCommon | shell/editor.go:408-419 | the loops compute the longest byte string that starts every candidate |
| LineEditor.LineEditor.CompleteWord | shell/editor.go:382-431 | a single candidate is completed, several are extended by the runes of their common bytes or listed, and the screen follows |
| LineEditor.LineEditor.List | shell/editor.go:420-431 | candidates, prompt and line are shown below, and are what is written last; the content stays |
| LineEditor.LineEditor.Enter | shell/editor.go:235-244 | the whole line is handed over, wherever the cursor is; the screen is left on a fresh row, with the prompt to come |
| LineEditor.LineEditor.Interrupt | shell/editor.go:258-266 | the line is dropped, and the next prompt is on the screen if the line was |
| LineEditor.LineEditor.Eof | shell/editor.go:266-273 | at an empty line the content stays, and the owner's next prompt is shown right exactly when it does not fill its last row |
| LineEditor.LineEditor.ClearScreen | shell/editor.go:149-157 | after the owner cleared and prompted, the line is shown, whatever was on the screen |
| LineEditor.LineEditor.EditKey | shell/editor.go:209-306 | every key that edits or moves: the content is as `Key` says and the screen follows |
| LineEditor.LineEditor.InSequence | shell/editor.go:209-306 | one rune inside an escape sequence |
| LineEditor.LineEditor.Reset | shell/editor.go:59-66 | the next line starts empty with the history where it was |
| LineEditor.LineEditor.AddHistory | shell/editor.go:68-78 | an empty or repeated line is not remembered |
| LineEditor.LineEditor.Press | shell/editor.go:209-306 | one rune outside a sequence: the content is as `Key` says and the screen shows it |
| LineEditor.LineEditor.Take | shell/editor.go:209-306 | one rune of input, escape state included: the content is as `Step` says, and the screen shows what is promised of it |
| LineEditor.LineEditor.Input | shell/editor.go:209-306 | main result: after any input the content is the keys' meaning, and until an Enter replaying everything echoed shows prompt and line with the cursor at its layout cell |
| LineEditor.LineEditor.OwnerPrompts | web/session.go:354-359 | when the owner's text ends on a fresh row, its prompt leaves the display right exactly when nothing is typed |
| LineEditor.LineEditor.Answer | web/session.go:419-470 | the owner remembers, answers and prompts for the first line that waits; after an Enter with no rune taken since the display is right, and in general, on a fresh row, exactly when nothing is typed |
| LineEditor.LineEditor.Serve | web/session.go:366-396 | main result: keys and answers in any order, the content and what is promised of the screen |
| LineEditor.InTurnShows | web/session.go:366-470 | when every line is answered before the next rune is taken, the display is right whenever no line waits |
| LineEditor.LatePrompt | web/session.go:417-470 | a prompt on a fresh row shows the line exactly when no rune was taken, or what was typed is blank with the cursor at its start and the prompt does not fill its last row |
| LineEditor.PasteIsLost | web/session.go:261 | after a paste of ls, Enter and pwd the prompt that comes for ls does not show pwd |
| LineEditor.ListingIsFresh | shell/editor.go:426-431 | the listed candidates end on a fresh row |
| LineEditor.JoinedMore | shell/editor.go:420-431 | each further candidate listed comes after two blanks |
| LineEditor.EofNeedsRoom | web/session.go:263 | when Ctrl+D is answered with the cursor already settled, the display is right exactly when the next prompt does not fill its last row |
| Hosts.OutputIsFresh | web/session.go:261 | whole lines of a command's output leave the cursor on a fresh row |
| Hosts.NewLineFromLastRow | web/session.go:263 | `\r\n` from where nothing is shown after the cursor goes to a fresh row |
| Hosts.PageIsValid | web/session.go:257-270 | the page, which queues lines and answers them later, meets all the editor asks of its owner exactly when its completions extend the word and can be shown |
| Hosts.QueuedAnswer | web/session.go:417-470 | a queued line's answer starts its prompt on a fresh row exactly when its command wrote something or the row was fresh already |
| Hosts.ConsoleRunsAll | console/console.go:138 | the console runs what was submitted from one read exactly when that is one line at most |
| Hosts.ConsolePaste | console/console.go:138 | of two lines pasted the first is never run |
| SedInput.RecordsFlatten | shell/sed/sed.go:80-125 | splitting a reader into lines loses nothing |
| SedInput.OnlyLastUnterminated | shell/sed/sed.go:80-125 | only the last line of a reader can lack its newline, and then it is not empty |
| SedInput.Input.Advance | shell/sed/sed.go:95-114 | the lookahead moves one line, over exhausted and empty readers |
| SedInput.Input.Read | shell/sed/sed.go:116-125 | the next line of all the input, counted; not ok exactly at the end |
| SedInput.Output.Write | shell/sed/sed.go:127-146 | the newline the last line lacked is written first |
| SedInput.Output.Line | shell/sed/sed.go:148-155 | a line is written with its newline or owing it |
| SedInput.PrintAllText | shell/sed/sed.go:127-155 | printed records are all terminated except possibly the last |
| SedInput.LinesReproduceReaders | shell/sed/sed.go:80-155 | printing every line gives the readers back with only the newlines missing between readers added |
| SedRange.Selected | shell/sed/sed.go:288-353 | the stateful method computes one step of the range machine and keeps the step of `~` nonzero while active |
| SedRange.SelectsFrom | shell/sed/sed.go:288-353 | from any state at any line, the machine selects a line exactly when the open range or a later interval covers it |
| SedRange.SelectsDeclared | shell/sed/sed.go:288-353 | a range command selects exactly the lines of its declared intervals, for every second address and for `0,/re/` |
| SedRange.RunsGoOn | shell/sed/sed.go:177-192 | a range left open by one Run goes on in the next |
| SedRange.IntervalEnds | shell/sed/sed.go:288-353 | `N`, `$`, `+N` and `~N` end where they say, in line numbers |
| SedRange.MatchOneMeans | shell/sed/sed.go:271-286 | `N` is line N, `$` the last, `first~step` the lines first + k * step, and `first~0` the first only |
| SedRange.RegexIntervalEnds | shell/sed/sed.go:290-353 | an interval to a regular expression ends at the first match after its first line, and the one of `0,/re/` at the first match of all |
| SedRange.RegexEnds | shell/sed/sed.go:288-353 | an open range to a regular expression selects every line up to the first that matches, and is closed after it |
| SedParse.Nest | shell/sed/parse.go:94-186 | flattening succeeds exactly on defect-free balanced scripts and patches every `{` with its `}` |
| SedParse.Labels | shell/sed/parse.go:160-186 | the label table is built exactly when labels are distinct |
| SedParse.Resolve | shell/sed/parse.go:160-186 | branches are resolved exactly when their labels exist, to the label or past the end |
| SedParse.Parse | shell/sed/parse.go:94-186 | accepted exactly the acceptable scripts; then every `{` points at its `}` and every branch in range |
| SedParse.DefectMeans | shell/sed/parse.go:94-186 | which commands are refused by themselves, and with which error |
| SedParse.BranchesMean | shell/sed/parse.go:94-186 | in an accepted script `b`, `t` and `T` lead past the end or to the one `:` with their name, and nothing else of a command changes |
| SedParse.BlocksClose | shell/sed/parse.go:94-186 | in a balanced script every block has its `}` |
| SedParse.BlocksNest | shell/sed/parse.go:94-186 | a block that opens inside another closes inside it |
| SedExec.FlatIsNested | shell/sed/sed.go:355-480 | from any index, the flat list does what the nested blocks from there do and goes on where they end |
| SedExec.FlatScriptIsNested | shell/sed/sed.go:355-480 | an accepted script without labelled branches does over the flat list what interpreting its block tree does |
| SedExec.ReplaceMatches | shell/sed/sed.go:498-535 | the loop replaces the matches the numbering and `g` select |
| SedExec.ReplacesTheNth | shell/sed/sed.go:498-535 | without `g` only the nth match is replaced and the text around it stays |
| SedExec.ReplacingByItself | shell/sed/sed.go:498-535 | replacing each match by itself leaves the text as it was |
| SedExec.InOrderInRange | shell/sed/sed.go:498-535 | matches in order lie within the pattern space |
| SedCommands.SubstituteMeans | shell/sed/sed.go:498-535 | `s` itself: with fewer matches than asked for nothing but the last expression changes; otherwise, place by place, the nth match is replaced and with `g` all after it, `p` prints and `w` writes what came of it, and an unwritable file is the only failure |
| SedCommands.SimpleMeans | shell/sed/sed.go:373-463 | what each command that only changes the state leaves alone; `w` fails exactly when its file cannot be written |
| SedCommands.HoldMeans | shell/sed/sed.go:397-408 | `g`, `G`, `h`, `H`, `x`, `z`, and `y` rune by rune |
| SedCommands.PrintsMean | shell/sed/sed.go:373-449 | `p`, `P`, `=`, `i`, `a` and `r`: what is printed at once and what is queued |
| SedCommands.FlushMeans | shell/sed/sed.go:194-199 | what was queued is written in the order it was queued, after a newline still owed |
| SedCommands.NextMeans | shell/sed/sed.go:417-432 | `n` and `N`, at the last line and before it |
| SedCommands.DeleteMeans | shell/sed/sed.go:380-396 | `d`, `D` with one line and with several, and `c` in a range |
| SedCommands.JumpsMean | shell/sed/sed.go:433-477 | `q`, `Q`, `b`, `t` and `T` |
| SedCommands.RegexMeans | shell/sed/sed.go:258-286 | a regular expression as address, the empty one standing for the last used |
| SedCommands.RangeMeans | shell/sed/sed.go:290-353 | which of the two addresses of a range is looked at, and what changes by that |
| SedScripts.TurnPlain | shell/sed/sed.go:355-371 | a command with one address is done on the lines that have it, and with `!` on all others |
| SedScripts.RunFails | shell/sed/sed.go:220-224 | a command that fails ends the run |
| SedScripts.AgainMeans | shell/sed/sed.go:177-193 | what a program finds when it is run again, of the last Run and of the new input |
| SedScripts.HeadPrints | shell/sed/sed.go:207-243 | main result: on any input `nq` prints the first n lines, `nQ` those before line n, and the rest is not read |
| SedScripts.TacReverses | shell/sed/sed.go:355-480 | main result: on any input `1!G;h;$!d` prints the lines upside down |
| SedScripts.TailPrints | shell/sed/sed.go:355-480 | main result: on any input `$!N;$!D` prints the last two lines |
| SedExec.Executor.RunScript | shell/sed/sed.go:355-480 | the loop over the commands is the step function iterated, whose steps the rows of SedCommands tell |
| SedExec.Executor.RunInput | shell/sed/sed.go:207-243 | the loop over the cycles, restarts and quits included |
| SedExec.TurnKeeps | shell/sed/sed.go:355-480 | no command miscounts lines or breaks the output discipline |
| SedExec.RunKeeps | shell/sed/sed.go:194-243 | in every run of every script the line number counts the lines read and only the last record written can lack its newline |
| SedExec.InitialsDivide | shell/sed/sed.go:68-73 | before the first line every active range has a step to divide by exactly when no command has the addresses `0,~0` |
| SedExec.AcceptedDivides | shell/sed/parse.go:126-128 | however often an accepted script is run, each Run from the ranges the one before left, no range divides by a step of zero |
| SedExec.LastIsTotal | shell/sed/sed.go:256-286 | `$` holds exactly on the last line of all the input |
| SedExec.EmptyScriptPrints | shell/sed/sed.go:194-243 | an empty script prints every line, with `-n` none, and ends |
| SedExec.EmptyScriptReproduces | shell/sed/sed.go:194-243 | an empty script reproduces its readers with only the newlines missing between them added |
| SedRegex.Translate | shell/sed/regex.go:24-117 | the index loop computes the translation, errors included |
| SedRegex.ItemsRead | shell/sed/regex.go:121-178 | what is written for the rest of a bracket is read by RE2 as the items copied from it, or is refused with the same error |
| SedRegex.EscapesMean | shell/sed/regex.go:41-79 | what each escape is meant as: GNU's classes and control characters, back-references, the delimiter, and any other character as itself |
| SedRegex.DollarMeans | shell/sed/regex.go:94-100 | where a `$` is meant as the end of a line |
| SedRegex.BracketMeans | shell/sed/regex.go:121-135 | a `^` first negates a bracket, and a `]` first in its list is an item (section 9.3.5 of the POSIX Base Definitions) |
| SedRegex.BackslashMeans | shell/sed/regex.go:152-171 | in a list a backslash is itself, but before `n`, `t` and another one |
| SedRegex.IntervalsMean | shell/sed/regex.go:55-60 | an interval of numbers is one for RE2 exactly when they are at most 1000 and in order |
| SedRegex.BoundsAreRead | shell/sed/regex.go:55-60 | bounds are read up to the closing brace |
| SedRegex.BraceIsItself | shell/sed/regex.go:55-60 | a brace that no number follows is that character for RE2 |
| SedRegex.PlainItems | shell/sed/regex.go:121-178 | with no escaped delimiter in it a bracket is copied with the items that are meant |
| SedRegex.ItemsDiffer | shell/sed/regex.go:121-178 | and with one never, where both are brackets |
| SedRegex.SameExtent | shell/sed/regex.go:121-178 | an escaped delimiter other than `[`, `:` and `]` leaves the extent of a bracket, or what is wrong with it, as it is |
| SedRegex.BracketReads | shell/sed/regex.go:121-178 | a bracket expression is read by RE2 as the items copied, and what follows it is left |
| SedRegex.SameErrors | shell/sed/regex.go:24-117 | what is refused does not depend on the anchor context |
| SedRegex.BoundsAgree | shell/sed/regex.go:24-117 | RE2's look ahead at the text of an interval judges its bounds as they are in the POSIX reading |
| SedRegex.ReadsTheSame | shell/sed/regex.go:24-117 | from any point and context, RE2 reads the output as the tokens that are meant exactly when the rest is an expression with no escaped delimiter in a bracket, no stacked repetition, bounds that RE2 takes in every interval, and if it is a basic one no doubled leading `^` and no `$` before an escaped delimiter `)` or a bar |
| SedRegex.AcceptsExpressions | shell/sed/regex.go:24-178 | what is accepted are the expressions, and others are refused for what is wrong with them, unless an escaped delimiter `[`, `:` or `]` is in a bracket |
| SedRegex.TranslationReadsTheSame | shell/sed/regex.go:24-178 | main result: whole expressions, read as meant exactly under that condition |
| SedRegex.ReadOtherwise | shell/sed/regex.go:19-20 | `[^\/]` with the usual delimiter, `^^`, with a bar for delimiter `a$` and an escaped bar (basic), `a*?` and `a{x` (extended) violate the condition |
| SedRegex.BentBrackets | shell/sed/regex.go:121-178 | with the delimiter `[` an expression is refused, and with `]` something is accepted that is none |
| MoshScreen.Screen.PutOnBase | shell/mosh/screen.go:58-69 | the shadow is put on the diff's base |
| MoshScreen.Screen.Apply | shell/mosh/screen.go:51-98 | the method computes the tracker's step |
| MoshScreen.Screen.Take | shell/mosh/screen.go:100-107 | the output is handed over once |
| MoshScreen.Screen.Resize | shell/mosh/screen.go:109-119 | everything but the newest number and the pending output starts over |
| MoshScreen.AppliedIsTrue | shell/mosh/screen.go:51-98 | after a diff the tracker can take, late ones included, the newest state and all that the server may still use are the server's |
| MoshScreen.OnlyAcceptedIsTrue | shell/mosh/screen.go:51-98 | and after no other, of the server's diffs and of those that do not decode |
| MoshScreen.AppliedIsDisplayed | shell/mosh/screen.go:94-98 | after it the terminal shows the newest state |
| MoshScreen.RunKeeps | shell/mosh/screen.go:51-119 | both hold over every run of arrivals and takes, from the highest number thrown away on |
| MoshScreen.ShowsTheNewest | shell/mosh/screen.go:51-98 | main result: however diffs are resent, lost, late and reordered, replaying all output shows the highest-numbered state received |
| MoshScreen.WriteAllMeans | shell/mosh/screen.go:77-83 | all the host's strings are written, in order, and nothing else |
| MoshScreen.KeepsTheRest | shell/mosh/screen.go:84-93 | after a diff exactly the states below throwaway are gone, but for the newest; the others are as they were |
| MoshScreen.KeepsAll | shell/mosh/screen.go:54-76 | what does not decode, or was received before, throws nothing away |
| MoshScreen.ReceivedIsThere | shell/mosh/screen.go:51-98 | main result: in every run every state received is there to take diffs from, unless the server said it would not use it any more |
| MoshScreen.ResizeIsTrue | shell/mosh/screen.go:109-119 | a resize keeps the truth of the tracker for the server's states at the new size |
| MoshScreen.FailedDecode | shell/mosh/screen.go:69-82 | after a diff that does not decode, from a base that is there, the tracker stays true exactly when the base shows the same as the state the shadow is numbered by |
| MoshScreen.UnknownBase | shell/mosh/screen.go:69-73 | after one of the server's from a base that is not there, it stays true exactly when the server's base was blank |
| EventFilter.TakeKeepsBytes | progressive/events.go:142-169 | every byte is passed on, part of one whole event, or held, in order |
| EventSplit.ReadContinues | progressive/events.go:142-169 | taking now and with what is held later gives the keys and events of both together, unless an event starts one or two bytes before the split |
| EventFilter.StreamKeepsBytes | progressive/events.go:117-169 | the same conservation over any reads |
| EventSplit.EventIsLost | progressive/events.go:142-169 | when a read ends one or two bytes into an event, what is reported is not the events of the input |
| EventSplit.StreamCount | progressive/events.go:117-169 | however it is read, an input shows no more events than it has |
| EventSplit.StreamShortOrFewer | progressive/events.go:142-169 | however the rest of a divided event is read, only events after its end are seen, or a first one too short to be it |
| EventSplit.StartIsPiece | progressive/events.go:142-169 | the places where events start are those of the event pieces of the input read whole |
| EventSplit.ReadsAsWhole | progressive/events.go:117-169 | main result: for all inputs and reads, the keys and events are those of the whole input exactly when no read ends one or two bytes into an event |
| EventFilter.HeldIsKeys | progressive/events.go:117-138 | what is held when the input ends was no event |
| EventWhole.EventTaken | progressive/events.go:142-169 | an event with nothing in it that ends one is taken out whole, whatever ends it |
| EventWhole.FilterSeesAll | progressive/events.go:142-169 | main result: of keys and events one after another just the keys are passed on and just the events reported, in order |
| EventFilter.Filter.TakeBytes | progressive/events.go:142-169 | the loop computes the keys, the events and what is held |
| EventFilter.Filter.Read | progressive/events.go:117-138 | what reads return, in order, is the keys of all that was taken, and at the end also what was held; no empty read but for wakes, errors and empty buffers |
| Probe.CutDA1 | progressive/progressive.go:260-280 | the loops find the first whole DA1 reply |
| Probe.CutIsPutBack | progressive/progressive.go:245-280 | cutting out and putting back is the identity |
| Probe.ScanTakesOnlyAnswers | progressive/progressive.go:197-243 | scan takes out at most one answer of each kind and one DA1 reply, and every other byte stays, in order |
| ProbeAnswers.CutsTheKind | progressive/progressive.go:245-258 | the first answer of a kind is cut out, whole, and nothing else |
| ProbeAnswers.CutsTheAttributes | progressive/progressive.go:260-280 | the DA1 reply is found exactly when it is there, past other reports that begin like it, and cut out |
| ProbeAnswers.ScanTakesTheAnswers | progressive/progressive.go:197-243 | main result: scan is done exactly when the DA1 reply has arrived, and then leaves everything but the first answer of each kind, in order, whatever order they came in and whatever was typed around them |
| Probe.StepKeeps | progressive/progressive.go:112-195 | every step of probe, pump and reader keeps the conservation invariant |
| Probe.RunKeeps | progressive/progressive.go:112-195 | and so does every interleaving |
| Probe.HandsEverythingOver | progressive/progressive.go:112-280 | main result: in every interleaving, with reads that fail anywhere, what is read through is the terminal's bytes in order, none lost or repeated, with the answers out exactly when a buffer the probe scanned had them all, and after a failure only what the terminal has yet to give is missing |
| Probe.WhatCanBeDone | progressive/progressive.go:112-195 | in every state whoever can act may: the probe, the pump with any read, and a reader with any amount |
| Probe.FailureIsKept | progressive/progressive.go:119-192 | a failed read is kept for whoever reads next, and dropped by one step exactly: when the chunk that came with it completes the answers |
| Probe.FailureIsTold | progressive/progressive.go:119-192 | so a reader is told of it in every run but for that |
| Probe.NeverStuck | progressive/progressive.go:162-195 | when the probe is over the pump takes at most the one read it is in, it and a waiting reader make at most ten steps in any run, and as long as a reader waits there is one to make |
| Pipes.TakeBytes | docs/jsfs.js:223-246 | the chunk loop takes the first bytes, up to the length asked |
| Pipes.Deliver | docs/jsfs.js:223-246 | waiting readers are served first come first served, then the end of file or waiting |
| Pipes.DeliveredKeeps | docs/jsfs.js:223-246 | delivering keeps bytes and order and leaves readers waiting only with the pipe empty and a writer alive |
| Pipes.FirstComeFirstServed | docs/jsfs.js:223-247 | each waiting reader in turn is given as many bytes as it asked for or all that are left, from where the one before it ended; those left have nothing to read and a writer |
| Pipes.RetainKeeps | docs/jsfs.js:218-221 | another reference keeps the pipe invariant |
| Pipes.ReadKeeps | docs/jsfs.js:248-252 | a read keeps it |
| Pipes.WriteKeeps | docs/jsfs.js:254-260 | a write keeps it, the written bytes added |
| Pipes.CloseKeeps | docs/jsfs.js:262-278 | a close keeps it |
| Pipes.NowKeeps | docs/jsfs.js:479-498 | a read that does not wait keeps it |
| Pipes.NothingMeansTheEnd | docs/jsfs.js:223-246 | an answer of nothing that is not the end of file is given exactly to a read of no bytes while bytes are queued |
| Pipes.Pipes.MakePipe | docs/jsfs.js:205-216 | two fresh descriptors of a new empty pipe with one reference each |
| Pipes.Pipes.Retain | docs/jsfs.js:218-221 | exactly one reference more |
| Pipes.Pipes.ReadInto | docs/jsfs.js:248-252 | refused exactly off a read end; otherwise issued in turn and delivered what there is, with delivered plus queued still what was written |
| Pipes.Pipes.WriteFrom | docs/jsfs.js:254-260 | EBADF, EPIPE and success exactly as the ends are; the bytes are queued and delivered |
| Pipes.Pipes.Close | docs/jsfs.js:262-278 | a descriptor is there exactly while its end's count is positive |
| Pipes.Pipes.ReadNow | docs/jsfs.js:479-498 | EAGAIN exactly while readers wait or nothing is queued and a writer is left; otherwise what is queued, and with nothing queued all was delivered |
| Snapshot.Walk | docs/jsfs.js:870-892 | the recursive walk lists exactly the saved paths below a directory, parents first |
| Snapshot.Serialize | docs/jsfs.js:870-892 | and so for the whole tree |
| Snapshot.PruneEmpties | docs/jsfs.js:901-912 | a pruned directory is empty exactly when nothing excluded is below it |
| Snapshot.PruneLeaves | docs/jsfs.js:901-912 | pruning leaves all that is excluded, the directories above it, and nothing else |
| Snapshot.SetAtLookup | docs/jsfs.js:913-939 | setting one entry changes what is at its path, and below only when a directory does not meet a directory |
| Snapshot.ApplySnapshot | docs/jsfs.js:900-940 | the loop over the entries restores what the spec says over the pruned tree |
| Snapshot.RestoredMeans | docs/jsfs.js:870-940 | what is at each path after a restore, from the two trees and the exclusions alone |
| Snapshot.SaveAndRestore | docs/jsfs.js:870-940 | main result: every saved path is there again with its kind, mode, bytes or target and its time, or now where none was saved; excluded paths are untouched; and what else there is |
| Snapshot.ExcludedIsKept | docs/jsfs.js:893-912 | an excluded path is as the load made it exactly when nothing above it was saved as something other than a directory (or it holds nothing there) |
| Snapshot.OnlyDirectoriesStay | docs/jsfs.js:893-912 | of what is neither saved nor excluded only directories with something excluded inside stay |
| Vnet.RunKeeps | docs/vnet.js:29-280 | in every reachable state a registered wakeup has an empty queue and an open peer, and a connection closed on both sides is gone |
| Vnet.ListenMeans | docs/vnet.js:183-206 | a port is taken when free, and given up, and no other changes |
| Vnet.DialMeans | docs/vnet.js:208-237 | a dial makes a connection with nothing on its way, and tells the listener |
| Vnet.SendMeans | docs/vnet.js:238-247 | what a side sends waits for the other, after what already does, and fires the wakeup that waits there |
| Vnet.RecvMeans | docs/vnet.js:248-256 | a side takes what waits for it, the oldest first |
| Vnet.EachHearsTheOther | docs/vnet.js:208-256 | on a new connection each side gets what the other sends |
| Vnet.StepInOrder | docs/vnet.js:238-254 | one operation neither loses nor adds nor reorders a byte of a connection that stays |
| Vnet.BytesInOrder | docs/vnet.js:238-254 | in every run a side is given a prefix of what was sent to it, and given plus queued is exactly what was sent while the connection is there |
| Vnet.StayingKeepsTheConnection | docs/vnet.js:274-280 | a side that does not close and is not released keeps its connection whatever the other does |
| Vnet.EofMeansAllWasRead | docs/vnet.js:256-261 | end-of-file at a connection that is there comes only after every byte sent was given and the peer closed |
| Vnet.EofUndone | docs/vnet.js:236-261 | end-of-file is undone by one operation exactly: a send from the end that had closed |
| Vnet.EofNeedNotStay | docs/vnet.js:238-244 | a run in which that happens |
| Vnet.EofStays | docs/vnet.js:236-261 | when no side sends after closing, end-of-file stays and nothing is given after it |
| Vnet.NoWakeupIsLost | docs/vnet.js:29-32 | in every run a wakeup asked for has fired exactly once, or has not and waits with nothing to see, until the side asks again |
| Vnet.AskedFiresOrWaits | docs/vnet.js:263-270 | asking for a new wakeup starts that, and it fires at once exactly when there is something to see |
| Vnet.ReleaseLeavesNothing | docs/vnet.js:217-234 | a released program has no port and no open side; other ports and the queues of the connections that stay are untouched, and exactly those with another program's open side stay |
| Vnet.Network.constructor | docs/vnet.js:24-26 | the network starts empty |
| Vnet.Network.WakeSide | docs/vnet.js:29-32 | a wakeup fires once |
| Vnet.Network.Listen | docs/vnet.js:194-198 | a port is taken exactly when free |
| Vnet.Network.Unlisten | docs/vnet.js:200 | the port goes |
| Vnet.Network.Dial | docs/vnet.js:204-215 | refused exactly when nobody listens, otherwise a connection with a new id |
| Vnet.Network.ReleaseOwner | docs/vnet.js:217-234 | the loops do the release and count the program's ports and open sides |
| Vnet.Network.Send | docs/vnet.js:236-244 | taken exactly when the connection is there and its other end open |
| Vnet.Network.Recv | docs/vnet.js:246-254 | the first chunk queued, or nothing exactly when none is |
| Vnet.Network.AtEof | docs/vnet.js:256-261 | end-of-file as defined |
| Vnet.Network.OnReadable | docs/vnet.js:263-270 | the wakeup fires at once or is registered in place of the last |
| Vnet.Network.CloseSide | docs/vnet.js:272-280 | the side closes, the peer is woken, and the connection goes with its second end |
| WebSocket.WriteFrame | docs/vnet.js:525-539 | the buffer filled in place is, byte by byte, the frame of section 5.2 of RFC 6455: the head with the length in its form, the mask, and the payload with every bit that is set in the mask turned over |
| WebSocket.XorMeans | docs/vnet.js:537 | each bit of an exclusive or is set exactly when it is set in one of the two |
| WebSocket.CloseEnds | docs/vnet.js:599-604 | a close frame is answered once and ends with the code it carries, after the frames before it, and what follows is not read |
| WebSocket.XorTwice | docs/vnet.js:537 | masking a byte twice gives it back |
| WebSocket.MaskTwice | docs/vnet.js:537 | masking a payload twice gives it back |
| WebSocket.LengthIsRead | docs/vnet.js:587-590 | a length is read back exactly when it is below 2^32 |
| WebSocket.ReadsWhatWasWritten | docs/vnet.js:585-597 | reading undoes writing for payloads below 2^32 bytes, masked or not, whatever follows |
| WebSocket.Socket.Receive | docs/vnet.js:585-617 | arriving bytes are appended and every whole frame handled |
| WebSocket.DrainSplits | docs/vnet.js:585-617 | draining in two parts is draining at once |
| WebSocket.AnyChunks | docs/vnet.js:566-626 | messages and replies are the same however the bytes are chunked |
| WebSocket.DrainsFrames | docs/vnet.js:585-617 | frames written one after another are handled one after another |
| WebSocket.ControlsAside | docs/vnet.js:598-617 | control frames between others change no message, and every ping is answered in order |
| WebSocket.OneMessage | docs/vnet.js:607-617 | a message is delivered once and whole however it is fragmented |
| WebSocket.AllMessages | docs/vnet.js:607-617 | and so for a sequence of messages |
| WebSocket.DeliversMessages | docs/vnet.js:566-626 | main result: however messages are fragmented, control frames interleaved and bytes chunked, the page gets the messages whole and in order |
| Stdin.ItemGoes | web/stdin.go:81-112 | dropping the front item, or returning a mark, keeps the queue's account |
| Stdin.BytesGo | web/stdin.go:81-112 | returning part of the front item keeps it |
| Stdin.PushKeeps | web/stdin.go:54-64 | pushing keeps it |
| Stdin.SkippedMeans | web/stdin.go:81-116 | what a read drops are replies and interrupts of other commands at the front, up to the first item that is not |
| Stdin.InQueue.Push | web/stdin.go:54-64 | queued exactly when open and within the limit, stamped with the running command |
| Stdin.InQueue.Next | web/stdin.go:66-71 | a new command |
| Stdin.InQueue.Close | web/stdin.go:73-78 | closed |
| Stdin.InQueue.Read | web/stdin.go:80-112 | what other commands left at the front is dropped, and the next item decides: an interrupt ends the input, a wake returns nothing, bytes are returned as far as asked and the rest stays; with nothing left it is the end exactly when closed |
| Stdin.TypedInOrder | web/stdin.go:54-112 | main result: typed bytes read, with those still queued, are those accepted, in order |
| Stdin.TypedAreRead | web/stdin.go:80-112 | no typed byte is ever dropped |
| Stdin.MarksCarryNothing | web/stdin.go:88-95 | reading an interrupt or wake leaves the size that of what is queued exactly when it carries no bytes |
| Persist.Storage.SyncFS | cmd/websh/persist.go:161-201 | one round: per path what is stored and remembered, for every failure of a write, delete or file read |
| Persist.Storage.LoadAll | cmd/websh/persist.go:111-150 | exactly the stored paths that can be created are there again, and the directories above them; files whole, with permission bits and, if it can be set, their time |
| Persist.LoadedMeans | cmd/websh/persist.go:98-144 | what a load leaves at a path, field by field |
| Persist.LoadsWhatWasStored | cmd/websh/persist.go:111-150 | when all succeeds what was stored is there, and nothing else exactly when every directory above something stored was stored too |
| Persist.LosesRecord | cmd/websh/persist.go:180-199 | a path still in the filesystem loses its record exactly when it was stored before, has changed, its write fails and the delete that follows succeeds |
| Persist.SigTells | cmd/websh/persist.go:147-151 | a signature tells kind, size and time, and nothing else |
| Persist.WritesWhatChanged | cmd/websh/persist.go:155-190 | what is of another kind, size or time than what is stored is written; what is of the same is left |
| Persist.ModeIsNotSeen | cmd/websh/persist.go:147-165 | a new mode alone is never stored |
| Persist.TracksIfReadable | cmd/websh/persist.go:161-201 | the signatures go on telling what is stored, whatever writes fail, exactly when no changed file failed to be read |
| Persist.BaselineTracks | cmd/websh/main.go:61 | after a baseline in which all succeeds they do exactly when nothing was stored that is not in the filesystem |
| Persist.SuccessConverges | cmd/websh/persist.go:153-200 | one round in which all succeeds makes the store the filesystem exactly when equal signatures mean equal records |
| Persist.HistoryTracks | cmd/websh/persist.go:161-201 | any history of rounds keeps the tracking |
| Persist.Converges | cmd/websh/persist.go:153-200 | main result: a good baseline, any failures, and one good round leave the store equal to the filesystem, exactly when equal signatures mean equal records |
| Edit.CutAtCursor | shell/edit.go:22-30 | the flat text is what is before and after the cursor, and the offset is the length of the first |
| Edit.TypedEdits | shell/edit.go:150-159 | typed runes are inserted at the flat offset, newlines included |
| Edit.EnterEdits | shell/edit.go:195-202 | Enter inserts a newline there |
| Edit.BackspaceEdits | shell/edit.go:203-217 | backspace deletes the rune before it, a line break included |
| Edit.DeleteEdits | shell/edit.go:239-249 | delete deletes the rune after it |
| Edit.CutEdits | shell/edit.go:185-194 | Ctrl+K deletes to the next line break, or the line break itself, exactly when it meets no newline inside the line |
| Edit.KeyEdits | shell/edit.go:174-284 | main result: every key that stays on its line does to the flat text, cut at the cursor, what it means there, exactly when it meets no newline inside a line |
| Edit.MarksWhatChanges | shell/edit.go:174-284 | the text is marked exactly when a key changes it, but for Ctrl+K at the very end, which marks it too |
| Edit.LineMoves | shell/edit.go:226-255 | moves between lines stop at the first and last line and at the end of a shorter one |
| Edit.ViewTellsAll | shell/edit.go:22-30 | the flat text and the offset determine lines and cursor |
| Edit.ReloadGivesTheSame | shell/edit.go:43-48 | a saved buffer reads back as the same lines exactly when no line holds a newline |
| Edit.SaveGivesTheSame | shell/edit.go:67-83 | loading and saving adds a missing last newline and changes nothing else |
| Edit.RunReloads | shell/edit.go:174-284 | after any keys with no newline among typed runes, what is saved reads back as shown |
| Edit.BackspaceTakesBack | shell/edit.go:203-217 | backspace takes back the last rune typed, Enter's newline included |
| Edit.Append | shell/edit.go:150-159 | Go's append, in place or in a new array of any larger size |
| Edit.AppendAt | shell/edit.go:203-207 | one line appended to in place, and no other line touched |
| Edit.JoinAt | shell/edit.go:188-193 | a line joined with the next |
| Edit.SplitAt | shell/edit.go:195-199 | a line split, the rest copied so that the arrays stay apart |
| Edit.InsertAt | shell/edit.go:150-156 | a rune put in, in a line made anew |
| Edit.MakeLines | shell/edit.go:43-45 | every line in an array of its own |
| Edit.Written | shell/edit.go:72-76 | the loop writes the lines with newlines |
| Edit.Editor.constructor | shell/edit.go:42-57 | the loaded lines, cursor at the start |
| Edit.Editor.Clamp | shell/edit.go:85-111 | the cursor is brought into the text and the window over the cursor |
| Edit.Editor.InsertRune | shell/edit.go:150-159 | one rune inserted |
| Edit.Editor.SplitLine | shell/edit.go:195-202 | Enter on the slices |
| Edit.Editor.Erase | shell/edit.go:203-217 | backspace on the slices |
| Edit.Editor.DeleteAhead | shell/edit.go:239-249 | delete on the slices |
| Edit.Editor.CutLine | shell/edit.go:185-194 | Ctrl+K on the slices |
| Edit.Editor.Save | shell/edit.go:67-83 | written is the text, unless untitled; the mark goes exactly when the write succeeds |
| Edit.Editor.PressKey | shell/edit.go:174-284 | every key keeps: a line list never empty, no two lines in one array, the cursor in the text and in the window; the lines, cursor and mark are as the key says |
| Kitty.DecodeUndoesEncode | progdemo/progdemo.go:650 | decoding undoes encoding (section 4 of RFC 4648) |
| Kitty.BreaksDoNotMatter | web/images.go:140-144 | the decoder passes over line breaks, wherever they are (section 3.3 of RFC 4648 as Go's decoder has it) |
| Kitty.EncodeSplits | progdemo/progdemo.go:655-666 | an encoding cut after whole groups is the encodings of the parts |
| Kitty.CutEncoding | progdemo/progdemo.go:655-666 | 4096 letters are exactly 3072 bytes, and the last piece is the one that fits |
| Kitty.KittyPicture | progdemo/progdemo.go:647-670 | the loop over one encoding writes the pieces of the bytes, each encoded by itself |
| Kitty.ReadText | web/images.go:120-126 | reading the control text gives the control keys |
| Kitty.Receiver.Kitty | web/images.go:116-156 | one command, continuation keys, limit and errors included |
| Kitty.KeysMean | web/images.go:130-160 | in a transfer the keys are the first piece's, with m from each piece and q from one that has it |
| Kitty.LaterPieces | web/images.go:127-156 | later pieces complete the transfer under the first keys, or stray once the limit is passed |
| Kitty.PictureArrives | web/images.go:116-156 | main result: the receiver hands over exactly the bytes under the first keys, precisely when those before the last piece are within the limit |
| Kitty.PictureWithinLimit | web/images.go:116-156 | so every picture within the limit arrives |

## Left out

- Line editor: hosts without a prompt callback (the redraw mode), widths of 0 or 1 column, resizing, zero-width
  runes, newlines in the prompt and scrolling off the top. Candidates are valid UTF-8.
- LineEditor.LineEditor.Answer: an answer is one step, with no rune taken while the command runs; output that does not
  end its line, after which no prompt starts on a fresh row, and the bound of eight lines waiting are not modelled.
- Sed: the lexing of addresses and command arguments (the parser takes lexed commands), expansion of replacement
  parts and case conversion, files read and written, write errors.
- SedExec.FlatScriptIsNested: labelled branches have no block tree; such scripts run by the step function with a
  bound on the turns, which the executor's methods take as a parameter.
- SedRegex.TranslationReadsTheSame: expressions are compared token by token, brackets item by item, so that one that
  has a backslash anyway counts as read otherwise when an escaped delimiter adds another. What RE2 refuses for its
  structure (a missing argument, unbalanced groups, unknown class names, nested counts that are too high in all) is
  not part of the reading; both `\<` and `\>` are read as a word boundary, since both become `\b`; bytes beyond
  ASCII after a backslash are not modelled.
- MoshScreen.ShowsTheNewest: the laws of snapshot and diff are assumed of the emulator, and every diff is one that
  the tracker can take, which MoshScreen.OnlyAcceptedIsTrue proves to be needed, or one that comes too late: its base
  is thrown away and its number below the newest.
- Event filter: JSON decoding, and dropping events past the 256 the channel holds.
- Probe: parsing of the answers into capabilities, and real deadlines (a timeout can happen at any step).
- Pipes: pipeDrop.
- Snapshot: lazy files, mounts, hard links, links followed while restoring, an exclusion callback that throws, path
  normalisation.
- Vnet: HTTP, SOCKS and service-worker code over the connections; callbacks are numbers and microtasks a list of
  what was queued.
- WebSocket: the HTTP upgrade, text decoding and close timers.
- Stdin.InQueue.Read: one try of the read; waiting on the condition is the status Waits.
- Persist: errors of the walk itself, and partial failures inside the browser's database.
- Persist.Storage.LoadAll: the mode of a directory made only for what is below it is the filesystem library's choice.
- Full-screen editor: reading keys from bytes, drawing and the status line; text is runes, so invalid UTF-8 in a
  file is not modelled.
- Kitty: the cursor moves around a picture, the APC frame, replies, and what is done with a whole picture.
- Everything that is window, sound, toast, font or title code, ssh and Wisp dialling, the bash interpreter, awk,
  jq, the small applets, pager and prompt escapes: foreign calls or easy members.
