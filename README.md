# macOS simulator terminal, modelled in Dafny

This project models the terminal of a browser-based macOS desktop simulator
(`script.js`): the command interpreter `executeCommand`, the terminal's
keydown handler with its input buffer and history recall, the banner a new
terminal writes, and the window bookkeeping that decides which window is
focused (`createWindow`, `closeWindow`, raising a window on mousedown, and
the topmost-window scan).

The files follow the program's structure:

- `text.dfy` (module `Text`): the JavaScript string built-ins the
  interpreter relies on, `trim`, `split` on one character and `join`, with
  their round trips.
- `paths.dfy` (module `Paths`): the path arithmetic of `cd ..` and of
  `cd name`.
- `shell.dfy` (module `Shell`): what one command line does, as a function
  `Interpret` from the current path, the filesystem, the line and the
  clock's text to an `Effect`, and the properties of each command.
- `session.dfy` (module `Session`): the global `state` object as the class
  `Desktop`, one terminal's closure as the class `Terminal`, and the two
  loops of the keydown handler (the focus scan and the backward history
  search) as methods proved against specification functions.

The simulator's filesystem is flat. It maps a full path string to the
names of that directory's children, and every lookup uses the current path
itself; only `/` is ever a key. After `cd Documents` the current path is
`/Documents`, which is not a key, so a later `ls`, `mkdir name` or
`cd name` reads an undefined directory and throws a TypeError. The model
keeps this: such a line has the effect `Threw`, the handler stops there, and
nothing changes, not even the input buffer. `ChildOfRootIsDetached` states
the sequence.

The code behaves as follows, and the model keeps it:

- History, the recall index, the filesystem and the current path are global
  and shared by every terminal window. Opening a terminal appends its
  three-line banner to the existing history instead of starting a fresh one.
- An unknown command `c` answers `zsh: command not found: c`.
- The recall index is never reset, not by Enter and not by `clear`. After
  `clear` it can lie beyond the last history position; `Desktop.Valid`
  only keeps it at or above -1. Once it is 0 or more, the next ArrowUp
  after Enter starts its scan above the last history line and can pass
  over the command just entered (`StaleIndexSkipsLastCommand`,
  `Terminal.ArrowUpFromStaleIndex`).

`date` prints `new Date().toString()`; the model takes that text as the
parameter `clock`. Window ids come from `Date.now()`; the model takes the id
as a parameter and requires it to be new.

## Model

| member | source | states |
|---|---|---|
| Text.Trim | script.js:251 | `trim` leaves no white space at either end |
| Text.TrimStart | script.js:251 | the result is a suffix of the input, and only white space was removed in front of it |
| Text.TrimEnd | script.js:251 | the result is a prefix of the input, and only white space was removed after it |
| Text.UnpaddedTrim | script.js:251 | a string with no white space at its ends is left alone by `trim` |
| Text.TrimPadding | script.js:251 | `trim` removes exactly the white-space padding around a core whose ends are not white space |
| Text.TrimIdempotent | script.js:251 | trimming twice is trimming once |
| Text.Split | script.js:251 | `split(c)` gives at least one piece, and no piece holds `c` |
| Text.Join | script.js:263 | `join(sep)` of no elements is `''`, and the result is at least as long as the first element; JoinSplit and SplitJoin fix it as the inverse of `split` |
| Text.DropLast | script.js:294 | `pop()` on the path segments, and `slice(0, -1)` on the input buffer at line 355: the last element is removed, putting it back gives the original again, and an empty input stays empty |
| Text.JoinSplit | script.js:251 | joining the pieces of a split with the separator gives back the original string |
| Text.SplitAfterWord | script.js:251-253 | a separator-free word followed by the separator splits off as the first piece |
| Text.SplitLeadingSeparator | script.js:293 | a leading separator splits off an empty first piece |
| Text.SplitWord | script.js:251-253 | a string without the separator is its own only piece |
| Text.SplitJoin | script.js:263 | splitting a join of separator-free pieces gives back the pieces |
| Paths.NonEmpty | script.js:293 | `filter(p => p)` keeps exactly the non-empty pieces of the input, and keeps everything when nothing is empty |
| Paths.NonEmptySingleton | script.js:293 | a single piece is kept exactly when it is non-empty |
| Paths.NonEmptyAppend | script.js:293 | filtering distributes over concatenation, so the kept pieces stay in their order |
| Paths.Segments | script.js:293 | the segments of a path are non-empty and free of `/` |
| Paths.ParentPath | script.js:293-296 | the path after `cd ..` always starts with `/` |
| Paths.ChildPath | script.js:299 | the path after `cd name` starts with `/` when the current path does |
| Paths.SegmentsOfRooted | script.js:293-295 | rebuilding `/a/b/...` from non-empty, slash-free segments and splitting it again gives those segments |
| Paths.ParentDropsLastSegment | script.js:293-296 | `cd ..` removes exactly the last non-empty segment of the path |
| Paths.ParentIsCanonical | script.js:293-296 | `cd ..` always yields a canonical path, that is `/` followed by its segments joined with `/` |
| Paths.RootFacts | script.js:293-296 | `/` has no segments, is canonical and is its own parent, so the `=== ''` guard never fires |
| Paths.ParentOfChild | script.js:293-299 | from a canonical path and for a non-empty name without `/`, `cd name` adds exactly the segment `name`, and `cd ..` returns to the start |
| Shell.CommandLine | script.js:320 | the history line of an entered command starts with the prompt, and the raw line follows it |
| Shell.Tokens | script.js:251-253 | a line always has a command token, possibly empty |
| Shell.Listing | script.js:262-263 | the `ls` text of a directory, `(empty)` or the names joined by line breaks; LsOutput and LsRoundTrip state it |
| Shell.ChangeDir | script.js:285-304 | the `cd` branch on its first argument; CdNoOperand, CdUp, CdIntoChild, CdMissingChild and ThrowsIffDetached state each case |
| Shell.MakeDir | script.js:305-313 | the `mkdir` branch on its first argument; MkdirAdds, MkdirIdempotent, MkdirNoOperand and ThrowsIffDetached state each case |
| Shell.AddChild | script.js:308 | `dir[name] = {}` makes `name` a child, keeps the existing children in order, adds at most one entry and adds no duplicate |
| Shell.ParseCommand | script.js:257-318 | the `switch` selects the command named by the token, and exactly the unknown names fall to `default` |
| Shell.ParseName | script.js:257-318 | parsing a command's own name selects that command |
| Shell.Run | script.js:257-318 | the body of the `switch` on a parsed command and its arguments; FixedReplies, UnknownCommand, LsOutput and the `cd` and `mkdir` lemmas state every branch |
| Shell.Interpret | script.js:250-318 | what one line does: the command its first token names, run on the remaining tokens (InterpretTokens, WordLine, CommandLineArgs) |
| Shell.RunKeepsPaths | script.js:257-318 | no command adds or removes a filesystem key; only `mkdir` writes, and only the current directory; only `cd` moves |
| Shell.RunKeepsListingsWellFormed | script.js:305-312 | directory listings stay free of duplicates and empty names |
| Shell.RunKeepsPathAbsolute | script.js:285-304 | the current path keeps its leading `/` |
| Shell.ThrowsIffDetached | script.js:257-318 | a command throws exactly when the current path is not a key and the command is `ls`, `mkdir name` or `cd name` with a name other than `..` |
| Shell.CdNoOperand | script.js:287-290 | `cd` with no argument, or an empty one, goes to `/` silently |
| Shell.CdUp | script.js:291-297 | `cd ..` drops exactly the last segment, silently, and stays at `/` when already there |
| Shell.CdIntoChild | script.js:298-300 | `cd name` for a child `name` moves to `path + name` at `/` and to `path + "/" + name` elsewhere, silently |
| Shell.CdMissingChild | script.js:301-303 | `cd name` for a name that is not a child stays put and prints `cd: name: No such file or directory` |
| Shell.CdThenUp | script.js:291-300 | from a canonical path and for a child name that is non-empty, not `..` and without `/`, `cd name` then `cd ..` returns to where it started |
| Shell.MkdirAdds | script.js:305-310 | `mkdir name` makes `name` a child of the current directory, silently, keeps the existing children in order and leaves every other path as it was |
| Shell.MkdirIdempotent | script.js:305-310 | a second `mkdir name` changes nothing |
| Shell.MkdirNoOperand | script.js:310-312 | `mkdir` without a name prints `mkdir: missing operand` and changes nothing |
| Shell.LsOutput | script.js:261-264 | `ls` prints `(empty)` for a directory without children and the children one per line otherwise, changing nothing |
| Shell.LsRoundTrip | script.js:263 | the `ls` output split at line breaks gives back the listing |
| Shell.FixedReplies | script.js:258-283 | the replies of `help`, `pwd`, `echo`, `date`, `whoami`, `uname`, `clear` and the empty command, none of which moves or writes |
| Shell.UnknownCommand | script.js:316-317 | any other name gets `zsh: command not found: name` and changes nothing |
| Shell.InterpretTokens | script.js:251-257 | a line runs the command its first token names on the remaining tokens |
| Shell.NameHasNoSpace | script.js:257-315 | no command name holds a space |
| Shell.WordLine | script.js:251-257 | a line that trims to a command's name runs that command without arguments |
| Shell.CommandLineArgs | script.js:251-257 | a line that trims to a name, a space and a tail runs that command on the tail's space-separated pieces |
| Shell.EchoSplitRest | script.js:268-270 | `echo` on the space-separated pieces of a text prints that text |
| Shell.EchoPrintsRestOfLine | script.js:251-270 | `echo` prints the rest of the trimmed line exactly, runs of spaces included |
| Shell.EchoAlone | script.js:268-270 | a bare `echo` prints nothing |
| Shell.BlankLine | script.js:314-315 | a blank line is the empty command: no output, nothing moves |
| Shell.SeedWellFormed | script.js:8-15 | the seed filesystem has the single key `/`, with a well-formed listing |
| Shell.CdFromRoot | script.js:298-299 | `cd name` from `/`, for a child `name` other than `..`, moves to `/name` silently |
| Shell.ChildOfRootIsDetached | script.js:262-308 | when `/` is the only key, `cd name` from `/` lands on `/name`, where `ls` and `mkdir name` throw, and, for a name without `/`, `cd ..` returns to `/` |
| Session.TopIndex | script.js:336-345 | the scan's position is -1 or a position of the z-indices |
| Session.TopIndexIsTop | script.js:336-345 | the scan ends on the first strictly greatest positive z-index, or on -1 when none is positive |
| Session.TopIndexUnique | script.js:336-346 | at most one position is the topmost |
| Session.UniqueMaxIsTop | script.js:336-346 | a positive z-index above every other is the one the scan ends on |
| Session.TopWindow | script.js:336-345 | the `forEach` loop computes the scan's position |
| Session.ZOrder | script.js:338-339 | one z-index for each window, in document order |
| Session.ZOrderAt | script.js:339 | each window reads its z-index, or 0 when it has none |
| Session.Without | script.js:140 | `filter(id => id !== x)` keeps exactly the elements other than `x` |
| Session.WithoutAppend | script.js:140 | filtering distributes over concatenation |
| Session.WithoutAbsent | script.js:140 | filtering out an id that does not occur changes nothing |
| Session.WithoutSplit | script.js:134-143 | closing removes exactly the one occurrence of an open id and keeps the others in order |
| Session.WithoutKeepsNoDup | script.js:140 | filtering keeps the ids distinct |
| Session.AboveAllIsFocused | script.js:336-346 | a window whose z-index is above every other open window's is the focused one |
| Session.RaiseOk | script.js:126 | giving an open window the counter's value keeps the registry sound and makes it the focused window |
| Session.RaiseAboveAll | script.js:126 | the counter's value is above every z-index handed out before |
| Session.AppendOk | script.js:102-129 | registering a new window with the counter's value keeps the registry sound and makes it the focused window |
| Session.RemoveOk | script.js:140 | dropping a window keeps the registry sound |
| Session.Dispatch | script.js:251-318 | the imperative `switch` of `executeCommand` computes exactly what `Interpret` says the line does |
| Session.InterpretKeepsShellOk | script.js:250-324 | no line breaks the shell state: the single key `/`, well-formed listings, an absolute current path |
| Session.Desktop.HasFocus | script.js:333-346 | the handler's focus test answers whether the scan ends on this window |
| Session.Desktop.constructor | script.js:2-17 | the initial state: no windows, counter 100, empty history, recall index -1, the seed filesystem, current path `/` |
| Session.Desktop.CreateWindow | script.js:91-131 | the new element takes the counter's value, the counter moves on, the id is appended, and the new window is focused |
| Session.Desktop.Raise | script.js:125-127 | a mousedown gives the window the counter's value and moves the counter on; the window is then focused |
| Session.Desktop.PressTitlebar | script.js:163-171 | a titlebar press raises the window twice, once from the drag handler unless it is on a control and once from the window's own handler |
| Session.Desktop.CloseWindow | script.js:134-143 | closing filters the id out of `windows` and drops its element; an id that is not open changes nothing |
| Session.Desktop.Apply | script.js:274-323 | after the switch, history gets `prompt + line` and then the output if it is not empty; `clear` wipes the history instead |
| Session.LatestCommandLine | script.js:362-368 | the last history line at or before a position that starts with the prompt, or -1 when none does |
| Session.FindCommandLine | script.js:362-368 | the backward `for` loop stops at that line |
| Session.RecallLastCommand | script.js:320-323 | a backward scan from the last history line finds the command line entered last, unless its output itself starts with the prompt, and the raw line follows its prompt |
| Session.StaleIndexSkipsLastCommand | script.js:362-368 | a scan that starts one line above the end of `[prompt + 'ls', 'Documents', prompt + 'cd x']` passes over `cd x` and finds `ls` |
| Session.Terminal.constructor | script.js:386-388 | a new terminal appends its three banner lines to the shared history and starts with an empty buffer |
| Session.Terminal.ExecuteCommand | script.js:250-324 | the global state changes exactly as `Interpret` says the line does; only `clear` touches the buffer, which it empties |
| Session.Terminal.Enter | script.js:348-352 | Enter runs the buffer and then empties it, unless the command threw |
| Session.Terminal.ArrowUp | script.js:357-369 | below the last position the index moves up by one and the buffer takes the nearest command line at or before that many lines from the end, if there is one; otherwise nothing changes |
| Session.Terminal.ArrowUpRecallsLastCommand | script.js:357-369 | with the recall index at -1, the first ArrowUp after a command was entered sets the index to 0 and puts that raw line back in the buffer, unless its output starts with the prompt |
| Session.Terminal.ArrowUpFromStaleIndex | script.js:357-369 | with the recall index at 0, ArrowUp over `[prompt + 'ls', 'Documents', prompt + 'cd x']` sets the index to 1 and recalls `ls`, not `cd x` |
| Session.Terminal.ArrowDown | script.js:370-377 | above 0 the index moves down and the buffer stays; otherwise the buffer is cleared |
| Session.Terminal.KeyDown | script.js:327-382 | an unfocused terminal ignores every key; a focused one handles Enter, Backspace, the two arrows and single characters typed without Ctrl or Meta, and ignores the rest |
| Session.OpenTerminal | script.js:226-230 | opening a terminal returns a new `Terminal` object with its own empty buffer, appends the new window id, gives it the counter's value as its z-index and moves the counter on, so the window is focused, and appends the banner to the shared history |

## Left out

- Rendering: `renderTerminal`, the window markup and its HTML templates are presentation only.
- Timers: the 250 ms closing animation is collapsed, so `Session.Desktop.CloseWindow` states the effect after the delay.
- Minimizing: `minimizeWindow` is not modelled; in the code a minimized window stays hidden, and nothing shows it again.
- Window position: dragging geometry and the random placement from `Math.random` are not modelled.
- Clock and window ids: the text of `new Date().toString()` is the parameter `clock`, and the `Date.now()` window id is a parameter.
- Session.Desktop.CreateWindow: requires a window id that is not already open; two windows created in the same millisecond would share an id, and the model does not cover that case.
- Session.Terminal.KeyDown: does not model the handler removing itself when its window is gone or hidden; a closed window is simply never focused, so its terminal ignores every key, and hidden windows are not modelled.
- Object key semantics: a directory is an insertion-ordered list of names, so the model does not reproduce `Object.keys` listing integer-like names first, or inherited prototype keys such as `constructor` passing the `cd` test.
- Counter width: `zIndexCounter` and the z-indices are unbounded integers; a browser keeps a CSS z-index in 32 bits, so past about 2^31 raises the focus promises of `CreateWindow` and `Raise` would no longer hold there.
- Key lengths: `e.key.length` and `slice(0, -1)` count UTF-16 code units; the model counts Dafny characters.
- The wallpaper, the Finder, Settings and About windows and the clock in the menu bar are unrelated to the terminal.
