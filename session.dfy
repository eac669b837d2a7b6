/**
 * The simulator's mutable session: the global `state` object with its
 * window registry and z-order counter, and one terminal window's closure
 * (`initializeTerminal` in script.js) with its input buffer, its command
 * executor and its keydown handler.
 *
 * Window creation, closing and raising are modelled by their eventual
 * effect on `state`; the DOM element's `style.zIndex` is the `zIndex` map,
 * and document order is the order of `windows`.
 */
module Session {
  import opened Text
  import opened Paths
  import opened Shell

  // ---------------------------------------------------------------------
  // The topmost window
  // ---------------------------------------------------------------------

  /**
   * `t` is the window the keydown handler treats as focused: the first
   * position holding the strictly greatest positive z-index, or -1 when no
   * z-index is above 0 (`maxZ` starts at 0 and only a strictly greater
   * value replaces it).
   */
  predicate IsTopIndex(zs: seq<int>, t: int) {
    (t == -1 && forall k :: 0 <= k < |zs| ==> zs[k] <= 0) ||
    (0 <= t < |zs| && zs[t] > 0 &&
     (forall k :: 0 <= k < t ==> zs[k] < zs[t]) &&
     (forall k :: t < k < |zs| ==> zs[k] <= zs[t]))
  }

  /** The position the scan `allWindows.forEach(...)` ends on, one window after the other. */
  function TopIndex(zs: seq<int>): (t: int)
    ensures -1 <= t < |zs|
  {
    if zs == [] then -1
    else
      var t := TopIndex(zs[..|zs| - 1]);
      var maxZ := if t < 0 then 0 else zs[t];
      if zs[|zs| - 1] > maxZ then |zs| - 1 else t
  }

  /** The scan ends on the first strictly greatest positive z-index. */
  lemma {:induction false} TopIndexIsTop(zs: seq<int>)
    ensures IsTopIndex(zs, TopIndex(zs))
  {
    if zs != [] {
      TopIndexIsTop(zs[..|zs| - 1]);
    }
  }

  /** At most one position is the topmost. */
  lemma TopIndexUnique(zs: seq<int>, s: int, t: int)
    requires IsTopIndex(zs, s) && IsTopIndex(zs, t)
    ensures s == t
  {
  }

  /** A positive z-index above every other is the topmost, wherever it sits. */
  lemma UniqueMaxIsTop(zs: seq<int>, j: int)
    requires 0 <= j < |zs| && zs[j] > 0
    requires forall k :: 0 <= k < |zs| && k != j ==> zs[k] < zs[j]
    ensures TopIndex(zs) == j
  {
    assert IsTopIndex(zs, j);
    TopIndexIsTop(zs);
    TopIndexUnique(zs, TopIndex(zs), j);
  }

  /** The focus scan of the keydown handler, `parseInt(w.style.zIndex)` already applied. */
  method TopWindow(zs: seq<int>) returns (top: int)
    ensures top == TopIndex(zs)
    ensures IsTopIndex(zs, top)
  {
    var maxZ := 0;
    top := -1;
    var i := 0;
    while i < |zs|
      invariant 0 <= i <= |zs|
      invariant top == TopIndex(zs[..i])
      invariant maxZ == if top < 0 then 0 else zs[top]
    {
      assert zs[..i + 1][..i] == zs[..i];
      if zs[i] > maxZ {
        maxZ := zs[i];
        top := i;
      }
      i := i + 1;
    }
    assert zs[..i] == zs;
    TopIndexIsTop(zs);
  }

  /** The z-index of each window in document order; an unset one reads as 0. */
  function ZOrder(windows: seq<string>, z: map<string, int>): (zs: seq<int>)
    ensures |zs| == |windows|
  {
    if windows == [] then []
    else [if windows[0] in z then z[windows[0]] else 0] + ZOrder(windows[1..], z)
  }

  /** Each window's entry is its z-index, or 0. */
  lemma {:induction false} ZOrderAt(windows: seq<string>, z: map<string, int>)
    ensures forall i :: 0 <= i < |windows| ==>
      ZOrder(windows, z)[i] == (if windows[i] in z then z[windows[i]] else 0)
  {
    if windows != [] {
      ZOrderAt(windows[1..], z);
    }
  }

  // ---------------------------------------------------------------------
  // Removing a window id
  // ---------------------------------------------------------------------

  /** `xs.filter(id => id !== x)`. */
  function Without(xs: seq<string>, x: string): (r: seq<string>)
    ensures forall y :: y in r <==> y in xs && y != x
    ensures |r| <= |xs|
  {
    if xs == [] then []
    else if xs[0] == x then Without(xs[1..], x)
    else [xs[0]] + Without(xs[1..], x)
  }

  lemma {:induction false} WithoutAppend(a: seq<string>, b: seq<string>, x: string)
    ensures Without(a + b, x) == Without(a, x) + Without(b, x)
  {
    if a != [] {
      assert (a + b)[1..] == a[1..] + b;
      WithoutAppend(a[1..], b, x);
    } else {
      assert a + b == b;
    }
  }

  /** Filtering out an id that does not occur changes nothing. */
  lemma {:induction false} WithoutAbsent(xs: seq<string>, x: string)
    requires x !in xs
    ensures Without(xs, x) == xs
  {
    if xs != [] {
      WithoutAbsent(xs[1..], x);
    }
  }

  /** Closing removes exactly the one occurrence of a registered id and keeps the rest in order. */
  lemma WithoutSplit(a: seq<string>, x: string, b: seq<string>)
    requires x !in a && x !in b
    ensures Without(a + [x] + b, x) == a + b
  {
    WithoutAppend(a + [x], b, x);
    WithoutAppend(a, [x], x);
    WithoutAbsent(a, x);
    WithoutAbsent(b, x);
    WithoutItself(x);
    calc {
      Without(a + [x] + b, x);
      Without(a + [x], x) + Without(b, x);
      Without(a, x) + Without([x], x) + Without(b, x);
      { assert a + [] == a; }
      a + b;
    }
  }

  lemma WithoutItself(x: string)
    ensures Without([x], x) == []
  {
    assert [x][1..] == [];
  }

  lemma {:induction false} WithoutKeepsNoDup(xs: seq<string>, x: string)
    requires NoDup(xs)
    ensures NoDup(Without(xs, x))
  {
    if xs != [] {
      assert NoDup(xs[1..]) by {
        forall i, j | 0 <= i < j < |xs[1..]| ensures xs[1..][i] != xs[1..][j] {
          assert xs[1..][i] == xs[i + 1] && xs[1..][j] == xs[j + 1];
        }
      }
      WithoutKeepsNoDup(xs[1..], x);
      if xs[0] != x {
        var r := Without(xs[1..], x);
        assert xs[0] !in xs[1..] by {
          forall j | 0 <= j < |xs[1..]| ensures xs[1..][j] != xs[0] {
            assert xs[1..][j] == xs[j + 1];
          }
        }
        forall i, j | 0 <= i < j < |[xs[0]] + r| ensures ([xs[0]] + r)[i] != ([xs[0]] + r)[j] {
          if i == 0 {
            assert ([xs[0]] + r)[j] == r[j - 1];
            assert r[j - 1] in r;
          } else {
            assert ([xs[0]] + r)[i] == r[i - 1] && ([xs[0]] + r)[j] == r[j - 1];
          }
        }
      }
    }
  }

  // ---------------------------------------------------------------------
  // The window registry
  // ---------------------------------------------------------------------

  /** The first z-index `createWindow` hands out. */
  const FirstZIndex: int := 100

  /**
   * Open windows are distinct, each has a z-index, and every z-index was
   * handed out earlier by the counter `c`.
   */
  ghost predicate WindowsOk(ws: seq<string>, z: map<string, int>, c: int) {
    FirstZIndex <= c && NoDup(ws) &&
    (forall w :: w in z <==> w in ws) &&
    (forall w :: w in z ==> FirstZIndex <= z[w] < c)
  }

  /** Whether the keydown handler's scan over `ws` ends on the window `id`. */
  predicate Focused(ws: seq<string>, z: map<string, int>, id: string) {
    var t := TopIndex(ZOrder(ws, z));
    0 <= t < |ws| && ws[t] == id
  }

  /** A window whose z-index is above every other open window's is the focused one. */
  lemma AboveAllIsFocused(ws: seq<string>, z: map<string, int>, id: string)
    requires NoDup(ws) && id in ws && id in z && z[id] > 0
    requires forall w :: w in ws && w != id ==> w in z && z[w] < z[id]
    ensures Focused(ws, z, id)
  {
    var zs := ZOrder(ws, z);
    ZOrderAt(ws, z);
    var j :| 0 <= j < |ws| && ws[j] == id;
    forall k | 0 <= k < |zs| && k != j
      ensures zs[k] < zs[j]
    {
      assert ws[k] in ws && ws[k] != ws[j];
    }
    UniqueMaxIsTop(zs, j);
  }

  /** Giving an open window the counter's value keeps the registry sound and focuses it. */
  lemma RaiseOk(ws: seq<string>, z: map<string, int>, c: int, id: string)
    requires WindowsOk(ws, z, c) && id in ws
    ensures WindowsOk(ws, z[id := c], c + 1)
    ensures Focused(ws, z[id := c], id)
  {
    RaiseAboveAll(ws, z, c, id);
    AboveAllIsFocused(ws, z[id := c], id);
  }

  lemma RaiseAboveAll(ws: seq<string>, z: map<string, int>, c: int, id: string)
    requires WindowsOk(ws, z, c) && id in ws
    ensures NoDup(ws) && id in z[id := c] && z[id := c][id] > 0
    ensures forall w :: w in ws && w != id ==> w in z[id := c] && z[id := c][w] < z[id := c][id]
  {
  }

  /** Registering a fresh window with the counter's value keeps the registry sound and focuses it. */
  lemma AppendOk(ws: seq<string>, z: map<string, int>, c: int, id: string)
    requires WindowsOk(ws, z, c) && id !in ws
    ensures WindowsOk(ws + [id], z[id := c], c + 1)
    ensures Focused(ws + [id], z[id := c], id)
  {
    var ws' := ws + [id];
    assert NoDup(ws') by {
      forall i, j | 0 <= i < j < |ws'| ensures ws'[i] != ws'[j] {
        if j == |ws| {
          assert ws'[i] == ws[i] && ws[i] in ws;
        } else {
          assert ws'[i] == ws[i] && ws'[j] == ws[j];
        }
      }
    }
    AboveAllIsFocused(ws', z[id := c], id);
  }

  /** Dropping a window from both the list and the z-indices keeps the registry sound. */
  lemma RemoveOk(ws: seq<string>, z: map<string, int>, c: int, id: string)
    requires WindowsOk(ws, z, c)
    ensures WindowsOk(Without(ws, id), z - {id}, c)
  {
    WithoutKeepsNoDup(ws, id);
  }

  // ---------------------------------------------------------------------
  // The command switch
  // ---------------------------------------------------------------------

  /**
   * The `switch (command)` of `executeCommand`, on the current path and
   * filesystem it reads: a throw or `clear` ends it early, every other
   * branch leaves a path, a filesystem and an output behind. `Shell.Run`,
   * reached through `Shell.Interpret`, is its specification.
   */
  method Dispatch(currentPath: string, fileSystem: FileSystem, cmd: string, clock: string) returns (e: Effect)
    ensures e == Interpret(currentPath, fileSystem, cmd, clock)
  {
    var parts := Tokens(cmd);
    var command := ParseCommand(parts[0]);
    var args := parts[1..];
    var path, fs, output := currentPath, fileSystem, "";
    match command {
      case Help =>
        output := HelpText;
      case Ls =>
        if path !in fs {
          return Threw;
        }
        output := Listing(fs[path]);
      case Pwd =>
        output := path;
      case Echo =>
        output := Join(args, " ");
      case Date =>
        output := clock;
      case Clear =>
        return Cleared;
      case WhoAmI =>
        output := UserName;
      case Uname =>
        output := SystemName;
      case Cd =>
        var arg := FirstArg(args);
        if arg == "" {
          path := Root;
        } else if arg == ".." {
          path := ParentPath(path);
        } else if path !in fs {
          return Threw;
        } else if arg in fs[path] {
          path := ChildPath(path, arg);
        } else {
          output := NotADirectory(arg);
        }
      case Mkdir =>
        var dirName := FirstArg(args);
        if dirName != "" {
          if path !in fs {
            return Threw;
          }
          fs := fs[path := AddChild(fs[path], dirName)];
        } else {
          output := MissingOperand;
        }
      case NoCommand =>
      case Unknown(name) =>
        output := CommandNotFound(name);
    }
    e := Emitted(path, fs, output);
  }

  /**
   * The shell state stays sound: the single key `/` with well-formed
   * listings, and a current path that starts with `/`.
   */
  predicate ShellOk(fs: FileSystem, path: string) {
    fs.Keys == {Root} &&
    (forall p :: p in fs ==> WellFormedDir(fs[p])) &&
    IsAbsolute(path)
  }

  /** No command line breaks the shell state. */
  lemma InterpretKeepsShellOk(path: string, fs: FileSystem, line: string, clock: string)
    requires ShellOk(fs, path)
    requires Interpret(path, fs, line, clock).Emitted?
    ensures var e := Interpret(path, fs, line, clock); ShellOk(e.fs, e.path)
  {
    var t := Tokens(line);
    InterpretTokens(path, fs, line, clock, t[0], t[1..]);
    var c := ParseCommand(t[0]);
    RunKeepsPaths(path, fs, c, t[1..], clock);
    RunKeepsListingsWellFormed(path, fs, c, t[1..], clock);
    RunKeepsPathAbsolute(path, fs, c, t[1..], clock);
  }

  // ---------------------------------------------------------------------
  // The global state
  // ---------------------------------------------------------------------

  /** The global `state` object, without the wallpaper. */
  class Desktop {
    var windows: seq<string>
    var zIndex: map<string, int>
    var zIndexCounter: int
    var terminalHistory: seq<string>
    var terminalHistoryIndex: int
    var fileSystem: FileSystem
    var currentPath: string

    /** A sound window registry and shell state; the recall index never drops below -1. */
    ghost predicate Valid()
      reads this
    {
      WindowsOk(windows, zIndex, zIndexCounter) &&
      terminalHistoryIndex >= -1 &&
      ShellOk(fileSystem, currentPath)
    }

    /** Whether the window `id` is the one the keydown handler treats as focused. */
    predicate IsFocused(id: string)
      reads this
    {
      Focused(windows, zIndex, id)
    }

    /** The handler's focus test: is `id` the window its scan ends on? */
    method HasFocus(id: string) returns (focused: bool)
      ensures focused == IsFocused(id)
    {
      var top := TopWindow(ZOrder(windows, zIndex));
      focused := top >= 0 && windows[top] == id;
    }

    constructor()
      ensures Valid()
      ensures windows == [] && zIndex == map[] && zIndexCounter == FirstZIndex
      ensures terminalHistory == [] && terminalHistoryIndex == -1
      ensures fileSystem == SeedFileSystem && currentPath == Root
    {
      windows := [];
      zIndex := map[];
      zIndexCounter := FirstZIndex;
      terminalHistory := [];
      terminalHistoryIndex := -1;
      fileSystem := SeedFileSystem;
      currentPath := Root;
      SeedWellFormed();
    }

    /**
     * `createWindow`: the element gets the counter's value as its
     * z-index, the counter moves on, and the id is appended to `windows`.
     * The new window is then the focused one.
     */
    method CreateWindow(id: string)
      requires Valid() && id !in windows
      modifies this
      ensures Valid()
      ensures windows == old(windows) + [id]
      ensures zIndex == old(zIndex)[id := old(zIndexCounter)]
      ensures zIndexCounter == old(zIndexCounter) + 1
      ensures terminalHistory == old(terminalHistory) && terminalHistoryIndex == old(terminalHistoryIndex)
      ensures fileSystem == old(fileSystem) && currentPath == old(currentPath)
      ensures IsFocused(id)
    {
      AppendOk(windows, zIndex, zIndexCounter, id);
      zIndex := zIndex[id := zIndexCounter];
      zIndexCounter := zIndexCounter + 1;
      windows := windows + [id];
    }

    /**
     * A mousedown on a window: its z-index becomes the counter's value
     * and the counter moves on. The window is then the focused one.
     */
    method Raise(id: string)
      requires Valid() && id in windows
      modifies this
      ensures Valid()
      ensures zIndex == old(zIndex)[id := old(zIndexCounter)]
      ensures zIndexCounter == old(zIndexCounter) + 1
      ensures windows == old(windows)
      ensures terminalHistory == old(terminalHistory) && terminalHistoryIndex == old(terminalHistoryIndex)
      ensures fileSystem == old(fileSystem) && currentPath == old(currentPath)
      ensures IsFocused(id)
    {
      RaiseOk(windows, zIndex, zIndexCounter, id);
      zIndex := zIndex[id := zIndexCounter];
      zIndexCounter := zIndexCounter + 1;
    }

    /**
     * A mousedown on the titlebar: the drag handler raises the window
     * unless the press is on one of the three controls, and the window's
     * own handler raises it again as the event bubbles up.
     */
    method PressTitlebar(id: string, onControl: bool)
      requires Valid() && id in windows
      modifies this
      ensures Valid()
      ensures zIndexCounter == old(zIndexCounter) + (if onControl then 1 else 2)
      ensures zIndex == old(zIndex)[id := zIndexCounter - 1]
      ensures windows == old(windows)
      ensures terminalHistory == old(terminalHistory) && terminalHistoryIndex == old(terminalHistoryIndex)
      ensures fileSystem == old(fileSystem) && currentPath == old(currentPath)
      ensures IsFocused(id)
    {
      if !onControl {
        Raise(id);
      }
      Raise(id);
    }

    /**
     * `closeWindow`, once its animation delay has passed: an open window's
     * id is filtered out of `windows` and its element is gone; an id that
     * is not open changes nothing.
     */
    method CloseWindow(id: string)
      requires Valid()
      modifies this
      ensures Valid()
      ensures windows == Without(old(windows), id)
      ensures zIndex == old(zIndex) - {id}
      ensures zIndexCounter == old(zIndexCounter)
      ensures terminalHistory == old(terminalHistory) && terminalHistoryIndex == old(terminalHistoryIndex)
      ensures fileSystem == old(fileSystem) && currentPath == old(currentPath)
    {
      RemoveOk(windows, zIndex, zIndexCounter, id);
      if id in windows {
        windows := Without(windows, id);
        zIndex := zIndex - {id};
      } else {
        WithoutAbsent(windows, id);
        assert zIndex - {id} == zIndex;
      }
    }

    /**
     * What `executeCommand(line)` leaves behind in the global state when
     * the line does `e`: a throw changes nothing; `clear` empties the
     * history; anything else records `prompt + line`, then the output if
     * it is not empty, and takes the new path and filesystem. The windows
     * and the recall index are never touched.
     */
    twostate predicate Applied(line: string, e: Effect)
      reads this
    {
      windows == old(windows) && zIndex == old(zIndex) &&
      zIndexCounter == old(zIndexCounter) &&
      terminalHistoryIndex == old(terminalHistoryIndex) &&
      match e
      case Threw =>
        terminalHistory == old(terminalHistory) &&
        fileSystem == old(fileSystem) && currentPath == old(currentPath)
      case Cleared =>
        terminalHistory == [] &&
        fileSystem == old(fileSystem) && currentPath == old(currentPath)
      case Emitted(path, fs, output) =>
        terminalHistory ==
          old(terminalHistory) + [CommandLine(line)] + (if output == "" then [] else [output]) &&
        fileSystem == fs && currentPath == path
    }

    /**
     * The state updates of `executeCommand` once its switch has produced
     * `e`: the history push after the switch, or the wipe of `clear`.
     */
    method Apply(line: string, e: Effect)
      requires Valid()
      requires e.Emitted? ==> ShellOk(e.fs, e.path)
      modifies this
      ensures Valid()
      ensures Applied(line, e)
    {
      match e {
        case Threw =>
        case Cleared =>
          terminalHistory := [];
        case Emitted(path, fs, output) =>
          currentPath := path;
          fileSystem := fs;
          terminalHistory := terminalHistory + [CommandLine(line)];
          if output != "" {
            terminalHistory := terminalHistory + [output];
          }
      }
    }
  }

  // ---------------------------------------------------------------------
  // History recall
  // ---------------------------------------------------------------------

  /**
   * The position of the last history line at or before `from` that starts
   * with the prompt, or -1 when there is none.
   */
  function LatestCommandLine(h: seq<string>, from: int): (i: int)
    requires -1 <= from < |h|
    ensures -1 <= i <= from
    ensures i >= 0 ==> IsCommandLine(h[i]) && forall k :: i < k <= from ==> !IsCommandLine(h[k])
    ensures i == -1 ==> forall k :: 0 <= k <= from ==> !IsCommandLine(h[k])
    decreases from + 1
  {
    if from < 0 then -1
    else if IsCommandLine(h[from]) then from
    else LatestCommandLine(h, from - 1)
  }

  /** The backward `for` loop of ArrowUp. */
  method FindCommandLine(h: seq<string>, start: int) returns (i: int)
    requires -1 <= start < |h|
    ensures i == LatestCommandLine(h, start)
  {
    i := start;
    while i >= 0
      invariant -1 <= i <= start
      invariant LatestCommandLine(h, start) == LatestCommandLine(h, i)
      decreases i + 1
    {
      if IsCommandLine(h[i]) {
        return;
      }
      i := i - 1;
    }
  }

  /**
   * A backward scan from the last history line finds the command line
   * entered last, unless the output it produced itself starts with the
   * prompt.
   */
  lemma RecallLastCommand(h: seq<string>, line: string, output: seq<string>)
    requires |output| <= 1 && forall k :: 0 <= k < |output| ==> !IsCommandLine(output[k])
    ensures var h' := h + [CommandLine(line)] + output;
      LatestCommandLine(h', |h'| - 1) == |h| && h'[|h|][|Prompt|..] == line
  {
    var h' := h + [CommandLine(line)] + output;
    if output != [] {
      assert !IsCommandLine(h'[|h'| - 1]);
    }
  }

  /**
   * The recall index is not reset when a command is entered, so from an
   * index `k >= 0` the next ArrowUp starts its scan `k + 1` lines above the
   * last one and can pass over the command just entered.
   */
  lemma StaleIndexSkipsLastCommand()
    ensures var h := [CommandLine("ls"), "Documents", CommandLine("cd x")];
      LatestCommandLine(h, |h| - 1 - 1) == 0 && h[0][|Prompt|..] == "ls"
  {
  }

  // ---------------------------------------------------------------------
  // One terminal window
  // ---------------------------------------------------------------------

  /**
   * The keys the terminal's handler acts on when its window is focused:
   * Enter, Backspace, the two arrows, and any single character typed
   * without Ctrl or Meta.
   */
  predicate Handles(key: string, ctrl: bool, meta: bool) {
    IsEditKey(key) || (|key| == 1 && !ctrl && !meta)
  }

  /** The named keys the handler tests for before it looks at single characters. */
  predicate IsEditKey(key: string) {
    key == "Enter" || key == "Backspace" || key == "ArrowUp" || key == "ArrowDown"
  }

  /** The closure `initializeTerminal` sets up for one terminal window. */
  class Terminal {
    const desk: Desktop
    const windowId: string
    var currentInput: string

    /** The initial render's preamble: the banner goes onto the shared history. */
    constructor(d: Desktop, id: string)
      requires d.Valid()
      modifies d
      ensures desk == d && windowId == id && currentInput == ""
      ensures d.Valid()
      ensures d.terminalHistory == old(d.terminalHistory) + Banner
      ensures d.terminalHistoryIndex == old(d.terminalHistoryIndex)
      ensures d.windows == old(d.windows) && d.zIndex == old(d.zIndex) && d.zIndexCounter == old(d.zIndexCounter)
      ensures d.fileSystem == old(d.fileSystem) && d.currentPath == old(d.currentPath)
    {
      desk := d;
      windowId := id;
      currentInput := "";
      new;
      d.terminalHistory := d.terminalHistory + Banner;
    }

    /** `executeCommand(line)` did to the global state what `Interpret` says the line does. */
    twostate predicate CommandRan(line: string, clock: string)
      reads desk
    {
      desk.Applied(line, Interpret(old(desk.currentPath), old(desk.fileSystem), line, clock))
    }

    /**
     * `executeCommand`; `e` is what the line did, `Threw` when it stopped
     * on an undefined directory. Only `clear` touches the buffer, which it
     * empties.
     */
    method ExecuteCommand(cmd: string, clock: string) returns (e: Effect)
      requires desk.Valid()
      modifies this, desk
      ensures desk.Valid()
      ensures e == Interpret(old(desk.currentPath), old(desk.fileSystem), cmd, clock)
      ensures desk.Applied(cmd, e)
      ensures currentInput == if e == Cleared then "" else old(currentInput)
    {
      e := Dispatch(desk.currentPath, desk.fileSystem, cmd, clock);
      if e.Emitted? {
        InterpretKeepsShellOk(desk.currentPath, desk.fileSystem, cmd, clock);
      }
      desk.Apply(cmd, e);
      if e == Cleared {
        currentInput := "";
      }
    }

    /** Everything but the input buffer and the recall index is as it was. */
    twostate predicate OnlyRecallChanged()
      reads desk
    {
      desk.terminalHistory == old(desk.terminalHistory) &&
      desk.windows == old(desk.windows) && desk.zIndex == old(desk.zIndex) &&
      desk.zIndexCounter == old(desk.zIndexCounter) &&
      desk.fileSystem == old(desk.fileSystem) && desk.currentPath == old(desk.currentPath)
    }

    /**
     * ArrowUp: below the last position the recall index moves up by one,
     * and the buffer takes the nearest command line at or before the
     * position that many lines from the end, if there is one; at or past
     * the last position nothing changes.
     */
    twostate predicate RecalledUp()
      reads this, desk
    {
      var h := old(desk.terminalHistory);
      OnlyRecallChanged() &&
      if old(desk.terminalHistoryIndex) < |h| - 1 then
        desk.terminalHistoryIndex == old(desk.terminalHistoryIndex) + 1 &&
        0 <= desk.terminalHistoryIndex <= |h| - 1 &&
        var i := LatestCommandLine(h, |h| - 1 - desk.terminalHistoryIndex);
        currentInput == if i >= 0 then h[i][|Prompt|..] else old(currentInput)
      else
        desk.terminalHistoryIndex == old(desk.terminalHistoryIndex) && currentInput == old(currentInput)
    }

    /** ArrowDown: above 0 the index moves down and the buffer stays; otherwise the buffer is cleared. */
    twostate predicate RecalledDown()
      reads this, desk
    {
      OnlyRecallChanged() &&
      if old(desk.terminalHistoryIndex) > 0 then
        desk.terminalHistoryIndex == old(desk.terminalHistoryIndex) - 1 && currentInput == old(currentInput)
      else
        desk.terminalHistoryIndex == old(desk.terminalHistoryIndex) && currentInput == ""
    }

    /**
     * With the recall index still at -1, the first ArrowUp after Enter
     * brings back the line just entered, unless its output itself starts
     * with the prompt.
     */
    twostate lemma ArrowUpRecallsLastCommand(h: seq<string>, line: string, output: seq<string>)
      requires old(desk.terminalHistory) == h + [CommandLine(line)] + output
      requires old(desk.terminalHistoryIndex) == -1
      requires |output| <= 1 && forall k :: 0 <= k < |output| ==> !IsCommandLine(output[k])
      requires RecalledUp()
      ensures desk.terminalHistoryIndex == 0 && currentInput == line
    {
      RecallLastCommand(h, line, output);
    }

    /** From the stale index 0, ArrowUp passes over the last command, `cd x`, and recalls `ls`. */
    twostate lemma ArrowUpFromStaleIndex()
      requires old(desk.terminalHistory) == [CommandLine("ls"), "Documents", CommandLine("cd x")]
      requires old(desk.terminalHistoryIndex) == 0
      requires RecalledUp()
      ensures desk.terminalHistoryIndex == 1 && currentInput == "ls"
    {
      StaleIndexSkipsLastCommand();
    }

    /** Enter: run the buffer, then empty it unless the command threw. */
    method Enter(clock: string)
      requires desk.Valid()
      modifies this, desk
      ensures desk.Valid()
      ensures CommandRan(old(currentInput), clock)
      ensures currentInput ==
        if Interpret(old(desk.currentPath), old(desk.fileSystem), old(currentInput), clock) == Threw
        then old(currentInput) else ""
    {
      var e := ExecuteCommand(currentInput, clock);
      if e != Threw {
        currentInput := "";
      }
    }

    method ArrowUp()
      requires desk.Valid()
      modifies this, desk
      ensures desk.Valid()
      ensures RecalledUp()
    {
      if desk.terminalHistoryIndex < |desk.terminalHistory| - 1 {
        desk.terminalHistoryIndex := desk.terminalHistoryIndex + 1;
        var i := FindCommandLine(desk.terminalHistory, |desk.terminalHistory| - 1 - desk.terminalHistoryIndex);
        if i >= 0 {
          currentInput := desk.terminalHistory[i][|Prompt|..];
        }
      }
    }

    method ArrowDown()
      requires desk.Valid()
      modifies this, desk
      ensures desk.Valid()
      ensures RecalledDown()
    {
      if desk.terminalHistoryIndex > 0 {
        desk.terminalHistoryIndex := desk.terminalHistoryIndex - 1;
      } else {
        currentInput := "";
      }
    }

    /**
     * The keydown handler. `clock` is what `new Date().toString()` would
     * return should the key run a `date` command.
     */
    method KeyDown(key: string, ctrl: bool, meta: bool, clock: string)
      requires desk.Valid()
      modifies this, desk
      ensures desk.Valid()
      ensures !old(desk.IsFocused(windowId)) || !Handles(key, ctrl, meta) ==> unchanged(this, desk)
      ensures old(desk.IsFocused(windowId)) && key == "Enter" ==>
        CommandRan(old(currentInput), clock) &&
        currentInput ==
          if Interpret(old(desk.currentPath), old(desk.fileSystem), old(currentInput), clock) == Threw
          then old(currentInput) else ""
      ensures old(desk.IsFocused(windowId)) && key == "Backspace" ==>
        unchanged(desk) && currentInput == DropLast(old(currentInput))
      ensures old(desk.IsFocused(windowId)) && key == "ArrowUp" ==> RecalledUp()
      ensures old(desk.IsFocused(windowId)) && key == "ArrowDown" ==> RecalledDown()
      ensures old(desk.IsFocused(windowId)) && Handles(key, ctrl, meta) && !IsEditKey(key) ==>
        unchanged(desk) && currentInput == old(currentInput) + key
    {
      var focused := desk.HasFocus(windowId);
      if !focused {
        return;
      }
      if key == "Enter" {
        Enter(clock);
      } else if key == "Backspace" {
        currentInput := DropLast(currentInput);
      } else if key == "ArrowUp" {
        ArrowUp();
      } else if key == "ArrowDown" {
        ArrowDown();
      } else if |key| == 1 && !ctrl && !meta {
        currentInput := currentInput + key;
      }
    }
  }

  /** `openTerminal`: a new window, focused, whose terminal has appended the banner. */
  method OpenTerminal(desk: Desktop, id: string) returns (t: Terminal)
    requires desk.Valid() && id !in desk.windows
    modifies desk
    ensures desk.Valid()
    ensures fresh(t) && t.desk == desk && t.windowId == id && t.currentInput == ""
    ensures desk.windows == old(desk.windows) + [id] && desk.IsFocused(id)
    ensures desk.zIndex == old(desk.zIndex)[id := old(desk.zIndexCounter)]
    ensures desk.zIndexCounter == old(desk.zIndexCounter) + 1
    ensures desk.terminalHistory == old(desk.terminalHistory) + Banner
    ensures desk.terminalHistoryIndex == old(desk.terminalHistoryIndex)
    ensures desk.fileSystem == old(desk.fileSystem) && desk.currentPath == old(desk.currentPath)
  {
    desk.CreateWindow(id);
    t := new Terminal(desk, id);
  }
}
