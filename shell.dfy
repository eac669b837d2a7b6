/**
 * What one command line does to the terminal session (`executeCommand`,
 * script.js), as a function from the current path, the filesystem, the
 * line and the clock's text to an `Effect`.
 *
 * The filesystem is flat: it maps full path strings to the names of their
 * children, in insertion order, and every lookup is by the current path
 * itself. Only `/` is ever a key, so after `cd Documents` the current path
 * is `/Documents`, which is not a key, and `ls`, `mkdir name` and
 * `cd name` then throw a TypeError instead of producing output.
 */
module Shell {
  import opened Text
  import opened Paths

  /** Full path -> names of its children, in insertion order. */
  type FileSystem = map<string, seq<string>>

  const Prompt: string := "user@macOS ~ % "

  const SeedFileSystem: FileSystem :=
    map[Root := ["Documents", "Downloads", "Desktop", "Applications"]]

  /** The three lines every new terminal appends to the shared history. */
  const Banner: seq<string> :=
    ["macOS Simulator Terminal v1.0", "输入 \"help\" 查看可用命令", ""]

  /** The reply to `help`, line by line. */
  const HelpLines: seq<string> :=
    ["可用命令:",
     "  ls - 列出文件",
     "  pwd - 显示当前路径",
     "  echo - 输出文本",
     "  date - 显示日期时间",
     "  clear - 清空终端",
     "  whoami - 显示用户名",
     "  uname - 显示系统信息",
     "  help - 显示帮助"]

  const HelpText: string := Join(HelpLines, "\n")

  const EmptyListing: string := "(empty)"
  const UserName: string := "user"
  const SystemName: string := "macOS Simulator v1.0"
  const MissingOperand: string := "mkdir: missing operand"

  function NotADirectory(name: string): string {
    "cd: " + name + ": No such file or directory"
  }

  function CommandNotFound(command: string): string {
    "zsh: command not found: " + command
  }

  /** A directory listing: distinct, non-empty names. */
  predicate WellFormedDir(dir: seq<string>) {
    NoDup(dir) && forall i :: 0 <= i < |dir| ==> dir[i] != ""
  }

  /** The outcome of one command line. */
  datatype Effect =
    | Threw                          // `fileSystem[currentPath]` is undefined
    | Cleared                        // `clear`: history wiped, nothing echoed
    | Emitted(path: string, fs: FileSystem, output: string)

  /** How a history line records an entered command line. */
  function CommandLine(line: string): (r: string)
    ensures Prompt <= r && r[|Prompt|..] == line
  {
    Prompt + line
  }

  /** Whether ArrowUp may recall this history line as a command. */
  predicate IsCommandLine(s: string) {
    Prompt <= s
  }

  /** `cmd.trim().split(' ')`: the command name followed by its arguments. */
  function Tokens(line: string): (t: seq<string>)
    ensures |t| >= 1
  {
    Split(Trim(line), ' ')
  }

  /** The first argument, or "" when there is none (both are falsy in JavaScript). */
  function FirstArg(args: seq<string>): string {
    if args == [] then "" else args[0]
  }

  /** `dir[name] = {}`: an existing key keeps its place, a new one goes last. */
  function AddChild(dir: seq<string>, name: string): (r: seq<string>)
    ensures forall x :: x in r <==> x in dir || x == name
    ensures |dir| <= |r| <= |dir| + 1 && r[..|dir|] == dir
    ensures NoDup(dir) ==> NoDup(r)
  {
    if name in dir then dir else dir + [name]
  }

  /** The listing `ls` prints for a directory. */
  function Listing(dir: seq<string>): string {
    var out := Join(dir, "\n");
    if out == "" then EmptyListing else out
  }

  /** `cd` with the given first argument. */
  function ChangeDir(path: string, fs: FileSystem, arg: string): Effect {
    if arg == "" then Emitted(Root, fs, "")
    else if arg == ".." then Emitted(ParentPath(path), fs, "")
    else if path !in fs then Threw
    else if arg in fs[path] then Emitted(ChildPath(path, arg), fs, "")
    else Emitted(path, fs, NotADirectory(arg))
  }

  /** `mkdir` with the given first argument. */
  function MakeDir(path: string, fs: FileSystem, arg: string): Effect {
    if arg == "" then Emitted(path, fs, MissingOperand)
    else if path !in fs then Threw
    else Emitted(path, fs[path := AddChild(fs[path], arg)], "")
  }

  /** The command names `executeCommand` recognises, as a closed enumeration. */
  datatype Command =
    | Help | Ls | Pwd | Echo | Date | Clear | WhoAmI | Uname | Cd | Mkdir
    | NoCommand                      // the empty name: a blank line
    | Unknown(name: string)

  const KnownNames: seq<string> :=
    ["help", "ls", "pwd", "echo", "date", "clear", "whoami", "uname", "cd", "mkdir", ""]

  /** The name a command is typed as. */
  function Name(c: Command): string {
    match c
    case Help => "help"
    case Ls => "ls"
    case Pwd => "pwd"
    case Echo => "echo"
    case Date => "date"
    case Clear => "clear"
    case WhoAmI => "whoami"
    case Uname => "uname"
    case Cd => "cd"
    case Mkdir => "mkdir"
    case NoCommand => ""
    case Unknown(name) => name
  }

  /** The `case` labels of `switch (command)`: which branch a command name takes. */
  function ParseCommand(name: string): (c: Command)
    ensures Name(c) == name
    ensures c.Unknown? <==> name !in KnownNames
  {
    if name == "help" then Help
    else if name == "ls" then Ls
    else if name == "pwd" then Pwd
    else if name == "echo" then Echo
    else if name == "date" then Date
    else if name == "clear" then Clear
    else if name == "whoami" then WhoAmI
    else if name == "uname" then Uname
    else if name == "cd" then Cd
    else if name == "mkdir" then Mkdir
    else if name == "" then NoCommand
    else Unknown(name)
  }

  /** Parsing the name of a command gives the command back. */
  lemma ParseName(c: Command)
    requires c.Unknown? ==> c.name !in KnownNames
    ensures ParseCommand(Name(c)) == c
  {
  }

  /** The body of `switch (command)`. `clock` is what `new Date().toString()` returns. */
  function Run(path: string, fs: FileSystem, command: Command, args: seq<string>, clock: string): Effect {
    match command
    case Help => Emitted(path, fs, HelpText)
    case Ls => if path !in fs then Threw else Emitted(path, fs, Listing(fs[path]))
    case Pwd => Emitted(path, fs, path)
    case Echo => Emitted(path, fs, Join(args, " "))
    case Date => Emitted(path, fs, clock)
    case Clear => Cleared
    case WhoAmI => Emitted(path, fs, UserName)
    case Uname => Emitted(path, fs, SystemName)
    case Cd => ChangeDir(path, fs, FirstArg(args))
    case Mkdir => MakeDir(path, fs, FirstArg(args))
    case NoCommand => Emitted(path, fs, "")
    case Unknown(name) => Emitted(path, fs, CommandNotFound(name))
  }

  /** What entering `line` does. */
  function Interpret(path: string, fs: FileSystem, line: string, clock: string): Effect {
    var t := Tokens(line);
    Run(path, fs, ParseCommand(t[0]), t[1..], clock)
  }

  // ---------------------------------------------------------------------
  // Properties of the interpreter
  // ---------------------------------------------------------------------

  /** No command adds or removes a path key; only `mkdir` writes, and only the current directory; only `cd` moves. */
  lemma RunKeepsPaths(path: string, fs: FileSystem, command: Command, args: seq<string>, clock: string)
    requires Run(path, fs, command, args, clock).Emitted?
    ensures var e := Run(path, fs, command, args, clock);
      e.fs.Keys == fs.Keys &&
      (forall p :: p in fs && p != path ==> e.fs[p] == fs[p]) &&
      (command != Mkdir ==> e.fs == fs) &&
      (command != Cd ==> e.path == path)
  {
  }

  /** Well-formed listings stay well formed. */
  lemma RunKeepsListingsWellFormed(path: string, fs: FileSystem, command: Command, args: seq<string>, clock: string)
    requires forall p :: p in fs ==> WellFormedDir(fs[p])
    requires Run(path, fs, command, args, clock).Emitted?
    ensures var e := Run(path, fs, command, args, clock);
      forall p :: p in e.fs ==> WellFormedDir(e.fs[p])
  {
  }

  /** The current path stays absolute. */
  lemma RunKeepsPathAbsolute(path: string, fs: FileSystem, command: Command, args: seq<string>, clock: string)
    requires IsAbsolute(path)
    requires Run(path, fs, command, args, clock).Emitted?
    ensures IsAbsolute(Run(path, fs, command, args, clock).path)
  {
  }

  /**
   * A command throws exactly when the current path is not a key of the
   * filesystem and the command looks the current directory up: `ls`,
   * `mkdir name`, or `cd name` with a name other than `..`.
   */
  lemma ThrowsIffDetached(path: string, fs: FileSystem, command: Command, args: seq<string>, clock: string)
    ensures Run(path, fs, command, args, clock) == Threw <==>
      path !in fs &&
      (command == Ls ||
       (command == Mkdir && FirstArg(args) != "") ||
       (command == Cd && FirstArg(args) != "" && FirstArg(args) != ".."))
  {
  }

  /** `cd` with no argument, or an empty one, goes to the root. */
  lemma CdNoOperand(path: string, fs: FileSystem, args: seq<string>, clock: string)
    requires FirstArg(args) == ""
    ensures Run(path, fs, Cd, args, clock) == Emitted(Root, fs, "")
  {
  }

  /** `cd ..` drops exactly the last segment, silently, and stays at the root when already there. */
  lemma CdUp(path: string, fs: FileSystem, args: seq<string>, clock: string)
    requires FirstArg(args) == ".."
    ensures var e := Run(path, fs, Cd, args, clock);
      e.Emitted? && e.fs == fs && e.output == "" &&
      Segments(e.path) == DropLast(Segments(path)) &&
      (path == Root ==> e.path == Root)
  {
    ParentDropsLastSegment(path);
    RootFacts();
  }

  /** `cd name` with `name` a child of the current directory moves there, without output. */
  lemma CdIntoChild(path: string, fs: FileSystem, args: seq<string>, clock: string)
    requires path in fs
    requires FirstArg(args) != "" && FirstArg(args) != ".." && FirstArg(args) in fs[path]
    ensures var name := FirstArg(args);
      Run(path, fs, Cd, args, clock) ==
      Emitted(if path == Root then path + name else path + "/" + name, fs, "")
  {
    var name := FirstArg(args);
    if path == Root {
      assert ChildPath(path, name) == path + name;
    } else {
      assert ChildPath(path, name) == path + "/" + name;
    }
  }

  /** `cd name` with `name` not a child of the current directory stays put and says so. */
  lemma CdMissingChild(path: string, fs: FileSystem, args: seq<string>, clock: string)
    requires path in fs
    requires FirstArg(args) != "" && FirstArg(args) != ".." && FirstArg(args) !in fs[path]
    ensures Run(path, fs, Cd, args, clock) ==
      Emitted(path, fs, "cd: " + FirstArg(args) + ": No such file or directory")
  {
  }

  /** `cd name` followed by `cd ..` returns to where it started, from a canonical path and a slash-free name. */
  lemma CdThenUp(path: string, fs: FileSystem, name: string, rest: seq<string>, clock: string)
    requires IsCanonical(path) && path in fs && name in fs[path]
    requires name != "" && name != ".." && '/' !in name
    ensures var e := Run(path, fs, Cd, [name] + rest, clock);
      e.Emitted? &&
      Run(e.path, e.fs, Cd, [".."], clock) == Emitted(path, fs, "")
  {
    ParentOfChild(path, name);
  }

  /**
   * `mkdir name` makes `name` a child of the current directory, silently,
   * keeping the existing children in order and every other path as it was.
   */
  lemma MkdirAdds(path: string, fs: FileSystem, args: seq<string>, clock: string)
    requires path in fs && FirstArg(args) != ""
    ensures var name := FirstArg(args);
      var e := Run(path, fs, Mkdir, args, clock);
      e.Emitted? && e.path == path && e.output == "" &&
      e.fs.Keys == fs.Keys &&
      name in e.fs[path] &&
      (forall x :: x in e.fs[path] <==> x in fs[path] || x == name) &&
      e.fs[path][..|fs[path]|] == fs[path] &&
      (forall p :: p in fs && p != path ==> e.fs[p] == fs[p])
  {
  }

  /** A second `mkdir name` changes nothing: the name is not listed twice. */
  lemma MkdirIdempotent(path: string, fs: FileSystem, args: seq<string>, clock: string)
    requires path in fs && FirstArg(args) != ""
    ensures var e := Run(path, fs, Mkdir, args, clock);
      e.Emitted? && Run(path, e.fs, Mkdir, args, clock) == e
  {
    var name := FirstArg(args);
    var dir := AddChild(fs[path], name);
    assert AddChild(dir, name) == dir;
    assert fs[path := dir][path := dir] == fs[path := dir];
  }

  /** `mkdir` without a name reports it and changes nothing. */
  lemma MkdirNoOperand(path: string, fs: FileSystem, args: seq<string>, clock: string)
    requires FirstArg(args) == ""
    ensures Run(path, fs, Mkdir, args, clock) == Emitted(path, fs, "mkdir: missing operand")
  {
  }

  /** `ls` prints `(empty)` for a directory without children, and otherwise one name per line. */
  lemma LsOutput(path: string, fs: FileSystem, args: seq<string>, clock: string)
    requires path in fs && WellFormedDir(fs[path])
    ensures var e := Run(path, fs, Ls, args, clock);
      e.Emitted? && e.path == path && e.fs == fs &&
      (fs[path] == [] ==> e.output == "(empty)") &&
      (fs[path] != [] ==> e.output == Join(fs[path], "\n"))
  {
    if fs[path] != [] {
      assert |Join(fs[path], "\n")| >= |fs[path][0]| > 0;
    }
  }

  /** The `ls` output, split at line breaks, gives back the listing when no name holds a line break. */
  lemma LsRoundTrip(dir: seq<string>)
    requires WellFormedDir(dir) && dir != []
    requires forall i :: 0 <= i < |dir| ==> '\n' !in dir[i]
    ensures Split(Listing(dir), '\n') == dir
  {
    assert |Join(dir, "\n")| >= |dir[0]| > 0;
    SplitJoin(dir, '\n');
  }

  /** The fixed replies, none of which moves or writes. */
  lemma FixedReplies(path: string, fs: FileSystem, args: seq<string>, clock: string)
    ensures Run(path, fs, Help, args, clock) == Emitted(path, fs, HelpText)
    ensures Run(path, fs, Pwd, args, clock) == Emitted(path, fs, path)
    ensures Run(path, fs, Echo, args, clock) == Emitted(path, fs, Join(args, " "))
    ensures Run(path, fs, Date, args, clock) == Emitted(path, fs, clock)
    ensures Run(path, fs, WhoAmI, args, clock) == Emitted(path, fs, "user")
    ensures Run(path, fs, Uname, args, clock) == Emitted(path, fs, "macOS Simulator v1.0")
    ensures Run(path, fs, Clear, args, clock) == Cleared
    ensures Run(path, fs, NoCommand, args, clock) == Emitted(path, fs, "")
  {
  }

  /** Any other command name gets the shell's not-found message and changes nothing. */
  lemma UnknownCommand(path: string, fs: FileSystem, name: string, args: seq<string>, clock: string)
    requires name !in KnownNames
    ensures Run(path, fs, ParseCommand(name), args, clock) ==
      Emitted(path, fs, "zsh: command not found: " + name)
  {
  }

  /** Interpret runs the command the first token names on the remaining tokens. */
  lemma InterpretTokens(path: string, fs: FileSystem, line: string, clock: string, name: string, args: seq<string>)
    requires Tokens(line) == [name] + args
    ensures Interpret(path, fs, line, clock) == Run(path, fs, ParseCommand(name), args, clock)
  {
    assert ([name] + args)[1..] == args;
  }

  /** No command name has a space in it. */
  lemma NameHasNoSpace(c: Command)
    requires !c.Unknown?
    ensures ' ' !in Name(c)
  {
  }

  /** A line that trims to a command's name runs that command without arguments. */
  lemma WordLine(path: string, fs: FileSystem, line: string, clock: string, c: Command)
    requires !c.Unknown? && Trim(line) == Name(c)
    ensures Interpret(path, fs, line, clock) == Run(path, fs, c, [], clock)
  {
    NameHasNoSpace(c);
    SplitWord(Name(c), ' ');
    InterpretTokens(path, fs, line, clock, Name(c), []);
    ParseName(c);
  }

  /** A line that trims to a command's name, a space and `rest` runs that command on the pieces of `rest`. */
  lemma CommandLineArgs(path: string, fs: FileSystem, line: string, clock: string, c: Command, rest: string)
    requires !c.Unknown? && Trim(line) == Name(c) + " " + rest
    ensures Interpret(path, fs, line, clock) == Run(path, fs, c, Split(rest, ' '), clock)
  {
    NameHasNoSpace(c);
    SplitAfterWord(Name(c), rest, ' ');
    InterpretTokens(path, fs, line, clock, Name(c), Split(rest, ' '));
    ParseName(c);
  }

  /** `echo` on the space-separated pieces of `rest` prints `rest` back. */
  lemma EchoSplitRest(path: string, fs: FileSystem, rest: string, clock: string)
    ensures Run(path, fs, Echo, Split(rest, ' '), clock) == Emitted(path, fs, rest)
  {
    JoinSplit(rest, ' ');
  }

  /**
   * `echo` prints the rest of the trimmed line exactly, runs of spaces
   * included: splitting on single spaces and joining with single spaces
   * undo each other.
   */
  lemma EchoPrintsRestOfLine(path: string, fs: FileSystem, line: string, rest: string, clock: string)
    requires Trim(line) == "echo" + " " + rest
    ensures Interpret(path, fs, line, clock) == Emitted(path, fs, rest)
  {
    CommandLineArgs(path, fs, line, clock, Echo, rest);
    EchoSplitRest(path, fs, rest, clock);
  }

  /** A bare `echo` prints nothing. */
  lemma EchoAlone(path: string, fs: FileSystem, line: string, clock: string)
    requires Trim(line) == "echo"
    ensures Interpret(path, fs, line, clock) == Emitted(path, fs, "")
  {
    WordLine(path, fs, line, clock, Echo);
  }

  /** A line that is blank after trimming is the empty command: echoed, no output, no change. */
  lemma BlankLine(path: string, fs: FileSystem, line: string, clock: string)
    requires AllWhiteSpace(line)
    ensures Interpret(path, fs, line, clock) == Emitted(path, fs, "")
  {
    TrimPadding(line, "", "");
    assert line + "" + "" == line;
    WordLine(path, fs, line, clock, NoCommand);
  }

  /** The seed filesystem has only the root as a key, and its listing is well formed. */
  lemma SeedWellFormed()
    ensures SeedFileSystem.Keys == {Root}
    ensures WellFormedDir(SeedFileSystem[Root])
  {
  }

  /**
   * In a filesystem whose only key is the root, `cd name` from the root
   * lands on a path that is not a key, so every later `ls`, `mkdir name`
   * and `cd name` there throws, until `cd ..` or `cd` returns to the root.
   */
  lemma ChildOfRootIsDetached(fs: FileSystem, name: string, args: seq<string>, clock: string)
    requires fs.Keys == {Root} && name in fs[Root] && name != "" && name != ".."
    ensures var e := Run(Root, fs, Cd, [name], clock);
      e.Emitted? && e.path == "/" + name && e.path !in fs &&
      Run(e.path, fs, Ls, args, clock) == Threw &&
      (FirstArg(args) != "" ==> Run(e.path, fs, Mkdir, args, clock) == Threw) &&
      ('/' !in name ==> Run(e.path, fs, Cd, [".."], clock) == Emitted(Root, fs, ""))
  {
    var p := "/" + name;
    CdFromRoot(fs, name, clock);
    assert p !in fs by {
      assert |p| > |Root|;
    }
    if '/' !in name {
      ParentOfChild(Root, name);
      assert ChildPath(Root, name) == p;
    }
  }

  /** `cd name` from the root, for a child `name`, moves to `/name`. */
  lemma CdFromRoot(fs: FileSystem, name: string, clock: string)
    requires Root in fs && name in fs[Root] && name != "" && name != ".."
    ensures Run(Root, fs, Cd, [name], clock) == Emitted("/" + name, fs, "")
  {
    assert ChildPath(Root, name) == "/" + name;
  }
}
