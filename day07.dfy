/** Day 7: a terminal session of `cd` and `ls` commands is replayed to
    rebuild the directory tree, whose directory sizes are then summed. */
module Day07 {
  import opened Common

  /** File sizes are u32. */
  const FileSizeBound: nat := 0x1_0000_0000

  /** The directory limit of `sum_directory_size`. */
  const SmallDirectoryLimit: nat := 100000

  datatype FileSystem = File(name: string, size: nat) | Directory(name: string, children: seq<FileSystem>)

  /** One line printed by `ls`. */
  datatype ListOutput = Dir(dir: string) | FileEntry(file: string, fileSize: nat)

  datatype Command = ChangeDirectory(target: string) | List(output: seq<ListOutput>)

  // ---------------------------------------------------------------------
  // Parsing the session (`None` wherever the source panics)
  // ---------------------------------------------------------------------

  /** `parse_cd`: the chunk "cd NAME\n" names the text between "cd " and the
      chunk's last character; a chunk shorter than four characters makes the
      slice panic. */
  function ParseCd(input: string): (r: Option<Command>)
    ensures r.Some? <==> |input| >= 4
    ensures r.Some? ==> r.value.ChangeDirectory? && |r.value.target| == |input| - 4
  {
    if |input| < 4 then None else Some(ChangeDirectory(input[3..|input| - 1]))
  }

  /** `parse_ls_out_file`: "SIZE NAME", split at spaces; the name is the
      second piece and the size a u32. */
  function ParseLsOutFile(input: string): (r: Option<ListOutput>)
    ensures r.Some? ==> r.value.FileEntry? && r.value.fileSize < FileSizeBound
    ensures r.Some? ==> forall i :: 0 <= i < |r.value.file| ==> r.value.file[i] != ' '
    ensures r.Some? <==> |Split(input, ' ')| >= 2 && ParseUnsigned(Split(input, ' ')[0], FileSizeBound).Some?
  {
    var parts := Split(input, ' ');
    if |parts| < 2 then None
    else
      match ParseUnsigned(parts[0], FileSizeBound)
      case None => None
      case Some(size) => Some(FileEntry(parts[1], size))
  }

  /** `parse_list_output`: a line starting with "dir" is a directory named
      by everything after its fourth character, any other line a file. */
  function ParseListOutput(input: string): (r: Option<ListOutput>)
    ensures |input| < 3 ==> r.None?
    ensures r.Some? ==> (r.value.Dir? <==> input[..3] == "dir")
    ensures r.Some? && r.value.Dir? ==> |input| >= 4 && r.value.dir == input[4..]
    ensures r.Some? && r.value.FileEntry? ==> r == ParseLsOutFile(input)
  {
    if |input| < 3 then None
    else if input[..3] == "dir" then
      if |input| < 4 then None else Some(Dir(input[4..]))
    else ParseLsOutFile(input)
  }

  /** The lines `ls` printed: the non-empty lines of the chunk after its
      first one, which is the command itself. */
  function ListedLines(input: string): (lines: seq<string>)
    ensures forall i :: 0 <= i < |lines| ==> lines[i] != ""
  {
    var lines := NonEmpty(Split(input, '\n'));
    if |lines| == 0 then [] else lines[1..]
  }

  /** `parse_ls`: every listed line parses, in order. */
  function ParseLs(input: string): (r: Option<Command>)
    ensures r.Some? <==> forall i :: 0 <= i < |ListedLines(input)| ==> ParseListOutput(ListedLines(input)[i]).Some?
    ensures r.Some? ==> r.value.List? && |r.value.output| == |ListedLines(input)|
  {
    match MapAll(ParseListOutput, ListedLines(input))
    case None => None
    case Some(out) => Some(List(out))
  }

  /** `parse_command`: a chunk starting with "cd" or "ls" is that command;
      a shorter chunk, or one starting otherwise, panics (`todo!`). */
  function ParseCommand(input: string): (r: Option<Command>)
    ensures r.Some? ==> |input| >= 2 && input[..2] in {"cd", "ls"}
    ensures r.Some? ==> (r.value.ChangeDirectory? <==> input[..2] == "cd")
  {
    if |input| < 2 then None
    else if input[..2] == "cd" then ParseCd(input)
    else if input[..2] == "ls" then ParseLs(input)
    else None
  }

  /** `parse_input`: the session cut at every "$ ", without the text before
      the first prompt, each chunk one command. */
  function ParseInput(input: string): (r: Option<seq<Command>>)
    ensures r.Some? <==> forall chunk :: chunk in SplitOn(input, "$ ")[1..] ==> ParseCommand(chunk).Some?
    ensures r.Some? ==> |r.value| == |SplitOn(input, "$ ")| - 1
  {
    var chunks := SplitOn(input, "$ ")[1..];
    var parsed := MapAll(ParseCommand, chunks);
    assert parsed.Some? <==> forall i :: 0 <= i < |chunks| ==> ParseCommand(chunks[i]).Some?;
    assert (forall i :: 0 <= i < |chunks| ==> ParseCommand(chunks[i]).Some?) <==> forall chunk :: chunk in chunks ==> ParseCommand(chunk).Some?;
    parsed
  }

  // ---------------------------------------------------------------------
  // Printing a session, and parsing it back
  // ---------------------------------------------------------------------

  /** A name that can be printed in the session: no prompt sign and no line
      break. */
  predicate PlainName(s: string) {
    forall i :: 0 <= i < |s| ==> s[i] != '$' && s[i] != '\n'
  }

  /** A listed item that reads back as itself: file names are non-empty and
      hold no space, file sizes fit u32. */
  predicate PrintableEntry(e: ListOutput) {
    match e
    case Dir(d) => PlainName(d)
    case FileEntry(n, size) => PlainName(n) && |n| > 0 && size < FileSizeBound && forall i :: 0 <= i < |n| ==> n[i] != ' '
  }

  predicate PrintableCommand(c: Command) {
    match c
    case ChangeDirectory(d) => PlainName(d)
    case List(out) => forall i :: 0 <= i < |out| ==> PrintableEntry(out[i])
  }

  /** An item as `ls` prints it. */
  function EntryLine(e: ListOutput): string {
    match e
    case Dir(d) => "dir " + d
    case FileEntry(n, size) => NatToString(size) + " " + n
  }

  function EntryLines(out: seq<ListOutput>): (lines: seq<string>)
    ensures |lines| == |out| && forall i :: 0 <= i < |out| ==> lines[i] == EntryLine(out[i])
  {
    seq(|out|, i requires 0 <= i < |out| => EntryLine(out[i]))
  }

  /** A command and what it printed, as the chunk after its prompt. */
  function CommandChunk(c: Command): string {
    match c
    case ChangeDirectory(d) => "cd " + d + "\n"
    case List(out) => Join(["ls"] + EntryLines(out) + [""], '\n')
  }

  function CommandChunks(commands: seq<Command>): (chunks: seq<string>)
    ensures |chunks| == |commands| && forall i :: 0 <= i < |commands| ==> chunks[i] == CommandChunk(commands[i])
  {
    seq(|commands|, i requires 0 <= i < |commands| => CommandChunk(commands[i]))
  }

  /** The session: every command after a prompt "$ ". */
  function RenderSession(commands: seq<Command>): string {
    JoinOn([""] + CommandChunks(commands), "$ ")
  }

  /** A printed directory line reads back as itself. */
  lemma ParseDirLine(d: string)
    ensures ParseListOutput(EntryLine(Dir(d))) == Some(Dir(d))
  {
    var line := EntryLine(Dir(d));
    assert line[..3] == "dir" && line[4..] == d;
  }

  /** A printed file line reads back as itself. */
  lemma ParseFileLine(n: string, size: nat)
    requires PrintableEntry(FileEntry(n, size))
    ensures ParseListOutput(EntryLine(FileEntry(n, size))) == Some(FileEntry(n, size))
  {
    var line := EntryLine(FileEntry(n, size));
    var digits := NatToString(size);
    assert forall j :: 0 <= j < |digits| ==> digits[j] != ' ' by {
      forall j | 0 <= j < |digits| ensures digits[j] != ' ' {
        assert IsDigit(digits[j]);
      }
    }
    SplitFirstPiece(digits, ' ', n);
    SplitNoSeparator(n, ' ');
    assert line == digits + [' '] + n;
    assert Split(line, ' ') == [digits, n];
    assert IsDigit(line[0]);
    assert line[..3] != "dir";
  }

  /** A printed item reads back as itself. */
  lemma ParseEntryLine(e: ListOutput)
    requires PrintableEntry(e)
    ensures ParseListOutput(EntryLine(e)) == Some(e)
  {
    match e
    case Dir(d) => ParseDirLine(d);
    case FileEntry(n, size) => ParseFileLine(n, size);
  }

  /** Neither `$` nor a line break occurs in a joined text whose pieces
      hold none. */
  lemma {:induction false} JoinPlain(pieces: seq<string>)
    requires |pieces| > 0 && forall i :: 0 <= i < |pieces| ==> PlainName(pieces[i]) || pieces[i] == "ls"
    ensures forall j :: 0 <= j < |Join(pieces, '\n')| ==> Join(pieces, '\n')[j] != '$'
    decreases |pieces|
  {
    if |pieces| > 1 {
      JoinPlain(pieces[1..]);
      var rest := Join(pieces[1..], '\n');
      assert Join(pieces, '\n') == pieces[0] + ['\n'] + rest;
    }
  }

  /** A printed line of `ls` holds neither `$` nor a line break. */
  lemma EntryLinePlain(e: ListOutput)
    requires PrintableEntry(e)
    ensures PlainName(EntryLine(e))
  {
    match e
    case Dir(d) =>
    case FileEntry(n, size) =>
      var digits := NatToString(size);
      assert forall j :: 0 <= j < |digits| ==> IsDigit(digits[j]);
  }

  /** A printed chunk holds no `$`, so no prompt occurs inside it. */
  lemma ChunkHasNoPrompt(c: Command)
    requires PrintableCommand(c)
    ensures forall j :: 0 <= j < |CommandChunk(c)| ==> CommandChunk(c)[j] != '$'
  {
    match c
    case ChangeDirectory(d) =>
    case List(out) =>
      var pieces := ["ls"] + EntryLines(out) + [""];
      forall i | 0 <= i < |pieces| ensures PlainName(pieces[i]) || pieces[i] == "ls" {
        if 0 < i < |pieces| - 1 {
          EntryLinePlain(out[i - 1]);
        }
      }
      JoinPlain(pieces);
  }

  /** A printed `cd` reads back as itself. */
  lemma ParseCdChunk(d: string)
    ensures ParseCommand(CommandChunk(ChangeDirectory(d))) == Some(ChangeDirectory(d))
  {
    var chunk := CommandChunk(ChangeDirectory(d));
    assert chunk[..2] == "cd" && chunk[3..|chunk| - 1] == d;
  }

  /** The lines a printed `ls` lists are the printed items. */
  lemma ListedEntryLines(out: seq<ListOutput>)
    requires forall i :: 0 <= i < |out| ==> PrintableEntry(out[i])
    ensures ListedLines(CommandChunk(List(out))) == EntryLines(out)
  {
    var lines := EntryLines(out);
    var pieces := ["ls"] + lines + [""];
    forall i, j | 0 <= i < |pieces| && 0 <= j < |pieces[i]| ensures pieces[i][j] != '\n' {
      if 0 < i < |pieces| - 1 {
        EntryLinePlain(out[i - 1]);
      }
    }
    SplitJoin(pieces, '\n');
    forall i | 0 <= i < |["ls"] + lines| ensures (["ls"] + lines)[i] != "" {
      if i > 0 {
        ParseEntryLine(out[i - 1]);
      }
    }
    assert pieces == (["ls"] + lines) + [""];
    NonEmptyDropsLast(["ls"] + lines);
  }

  /** A printed `ls` reads back as itself. */
  lemma ParseLsChunk(out: seq<ListOutput>)
    requires forall i :: 0 <= i < |out| ==> PrintableEntry(out[i])
    ensures ParseCommand(CommandChunk(List(out))) == Some(List(out))
  {
    var chunk := CommandChunk(List(out));
    var lines := EntryLines(out);
    ListedEntryLines(out);
    forall i | 0 <= i < |lines| ensures ParseListOutput(lines[i]) == Some(out[i]) {
      ParseEntryLine(out[i]);
    }
    var pieces := ["ls"] + lines + [""];
    assert chunk == "ls" + "\n" + Join(pieces[1..], '\n');
    assert chunk[..2] == "ls";
    var r := ParseLs(chunk);
    assert r.value.output == out;
  }

  /** A printed command reads back as itself. */
  lemma ParseCommandChunk(c: Command)
    requires PrintableCommand(c)
    ensures ParseCommand(CommandChunk(c)) == Some(c)
  {
    match c
    case ChangeDirectory(d) => ParseCdChunk(d);
    case List(out) => ParseLsChunk(out);
  }

  /** No prompt occurs inside the pieces of a printed session. */
  lemma PiecesHaveNoPrompt(commands: seq<Command>)
    requires forall i :: 0 <= i < |commands| ==> PrintableCommand(commands[i])
    ensures var pieces := [""] + CommandChunks(commands);
      forall i :: 0 <= i < |pieces| ==> NoMatchBefore(pieces[i] + "$ ", "$ ", |pieces[i]|) && NoMatchBefore(pieces[i], "$ ", |pieces[i]|)
  {
    var pieces := [""] + CommandChunks(commands);
    forall i | 0 <= i < |pieces| ensures NoMatchBefore(pieces[i] + "$ ", "$ ", |pieces[i]|) && NoMatchBefore(pieces[i], "$ ", |pieces[i]|) {
      if i > 0 {
        ChunkHasNoPrompt(commands[i - 1]);
        assert pieces[i] == CommandChunk(commands[i - 1]);
        NoSignNoPrompt(pieces[i]);
      }
    }
  }

  /** Without a `$`, no prompt starts inside a text, even one the next
      prompt follows. */
  lemma NoSignNoPrompt(s: string)
    requires forall j :: 0 <= j < |s| ==> s[j] != '$'
    ensures NoMatchBefore(s + "$ ", "$ ", |s|) && NoMatchBefore(s, "$ ", |s|)
  {
    forall p | 0 <= p < |s| ensures !MatchAt(s + "$ ", "$ ", p) && !MatchAt(s, "$ ", p) {
      assert (s + "$ ")[p + 0] == s[p];
      assert "$ "[0] == '$';
    }
  }

  /** Reading a printed session gives back its commands. */
  lemma ParseRenderSession(commands: seq<Command>)
    requires forall i :: 0 <= i < |commands| ==> PrintableCommand(commands[i])
    ensures ParseInput(RenderSession(commands)) == Some(commands)
  {
    var chunks := CommandChunks(commands);
    var pieces := [""] + chunks;
    PiecesHaveNoPrompt(commands);
    SplitOnJoin(pieces, "$ ");
    assert SplitOn(RenderSession(commands), "$ ")[1..] == chunks;
    forall i | 0 <= i < |chunks| ensures ParseCommand(chunks[i]) == Some(commands[i]) {
      ParseCommandChunk(commands[i]);
    }
    var r := ParseInput(RenderSession(commands));
    assert r.value == commands;
  }

  // ---------------------------------------------------------------------
  // Rewriting the tree at a path
  // ---------------------------------------------------------------------

  /** `list_to_filesystem`: every listed directory becomes an empty
      directory and every listed file a file of that size. */
  function ListToFileSystem(list: seq<ListOutput>): (nodes: seq<FileSystem>)
    ensures |nodes| == |list|
    ensures forall i :: 0 <= i < |list| ==> (nodes[i].Directory? <==> list[i].Dir?)
    ensures forall i :: 0 <= i < |list| && list[i].Dir? ==> nodes[i] == Directory(list[i].dir, [])
    ensures forall i :: 0 <= i < |list| && list[i].FileEntry? ==> nodes[i] == File(list[i].file, list[i].fileSize)
  {
    seq(|list|, i requires 0 <= i < |list| =>
      match list[i]
      case Dir(d) => Directory(d, [])
      case FileEntry(n, size) => File(n, size))
  }

  /** Some directory of the tree is reached by following the names of
      `path` from the top, the first name being the top's own. */
  predicate DirAt(fs: FileSystem, path: seq<string>)
    decreases fs
  {
    fs.Directory? && |path| > 0 && path[0] == fs.name &&
    (|path| == 1 || exists c :: c in fs.children && DirAt(c, path[1..]))
  }

  /** Every directory reached by following `path` has `value` as its
      children. */
  predicate ChildrenAt(fs: FileSystem, path: seq<string>, value: seq<FileSystem>)
    decreases fs
  {
    fs.Directory? && |path| > 0 && path[0] == fs.name ==>
      if |path| == 1 then fs.children == value
      else forall c :: c in fs.children ==> ChildrenAt(c, path[1..], value)
  }

  /** `set_at_path` on a non-empty path: a directory whose name is the
      head of the path gets `value` as its children when the path ends
      there, and otherwise passes the rest of the path to every child;
      files and directories of another name stay as they are. */
  function Replace(fs: FileSystem, path: seq<string>, value: seq<FileSystem>): (r: FileSystem)
    requires |path| > 0
    ensures r.name == fs.name && r.Directory? == fs.Directory?
    ensures r.File? ==> r == fs
    ensures r.Directory? && (|path| > 1 || path[0] != fs.name) ==> |r.children| == |fs.children|
    decreases fs
  {
    match fs
    case File(_, _) => fs
    case Directory(name, children) =>
      if path[0] != name then fs
      else if |path| == 1 then Directory(name, value)
      else Directory(name, seq(|children|, i requires 0 <= i < |children| => Replace(children[i], path[1..], value)))
  }

  /** `set_at_path`, which reads the head of the path of a directory, so
      that an empty path panics there. */
  function SetAtPath(fs: FileSystem, path: seq<string>, value: seq<FileSystem>): (r: Option<FileSystem>)
    ensures r.None? <==> fs.Directory? && path == []
    ensures r.Some? ==> r.value.name == fs.name && r.value.Directory? == fs.Directory?
  {
    if path == [] then (if fs.Directory? then None else Some(fs))
    else Some(Replace(fs, path, value))
  }

  /** After the rewrite, every directory at the path holds `value`. */
  lemma {:induction false} ReplaceSets(fs: FileSystem, path: seq<string>, value: seq<FileSystem>)
    requires |path| > 0
    ensures ChildrenAt(Replace(fs, path, value), path, value)
    decreases fs
  {
    if fs.Directory? && path[0] == fs.name && |path| > 1 {
      var r := Replace(fs, path, value);
      forall c | c in r.children ensures ChildrenAt(c, path[1..], value) {
        var i :| 0 <= i < |r.children| && r.children[i] == c;
        ReplaceSets(fs.children[i], path[1..], value);
      }
    }
  }

  /** A path that reaches no directory rewrites nothing. */
  lemma {:induction false} ReplaceUnmatched(fs: FileSystem, path: seq<string>, value: seq<FileSystem>)
    requires |path| > 0 && !DirAt(fs, path)
    ensures Replace(fs, path, value) == fs
    decreases fs
  {
    if fs.Directory? && path[0] == fs.name {
      assert |path| > 1;
      var r := Replace(fs, path, value);
      forall i | 0 <= i < |fs.children| ensures r.children[i] == fs.children[i] {
        assert fs.children[i] in fs.children;
        ReplaceUnmatched(fs.children[i], path[1..], value);
      }
      assert r.children == fs.children;
    }
  }

  /** Rewriting the directories at a path with the children they already
      have changes nothing. */
  lemma {:induction false} ReplaceSame(fs: FileSystem, path: seq<string>, value: seq<FileSystem>)
    requires |path| > 0 && ChildrenAt(fs, path, value)
    ensures Replace(fs, path, value) == fs
    decreases fs
  {
    if fs.Directory? && path[0] == fs.name && |path| > 1 {
      var r := Replace(fs, path, value);
      forall i | 0 <= i < |fs.children| ensures r.children[i] == fs.children[i] {
        assert fs.children[i] in fs.children;
        ReplaceSame(fs.children[i], path[1..], value);
      }
      assert r.children == fs.children;
    }
  }

  /** The last rewrite at a path wins: only the children of the
      directories at the path depend on the value. */
  lemma {:induction false} ReplaceTwice(fs: FileSystem, path: seq<string>, v: seq<FileSystem>, w: seq<FileSystem>)
    requires |path| > 0
    ensures Replace(Replace(fs, path, v), path, w) == Replace(fs, path, w)
    decreases fs
  {
    if fs.Directory? && path[0] == fs.name && |path| > 1 {
      var once := Replace(fs, path, v);
      var twice := Replace(once, path, w);
      var direct := Replace(fs, path, w);
      forall i | 0 <= i < |fs.children| ensures twice.children[i] == direct.children[i] {
        ReplaceTwice(fs.children[i], path[1..], v, w);
      }
      assert twice.children == direct.children;
    }
  }

  // ---------------------------------------------------------------------
  // Replaying the session
  // ---------------------------------------------------------------------

  /** The tree built so far and the path of directory names entered. */
  datatype Session = Session(root: FileSystem, path: seq<string>)

  function InitialSession(): Session {
    Session(Directory("/", []), [])
  }

  /** One command of `build_filesystem`: "cd .." leaves the innermost
      directory (and does nothing at the top), any other `cd` pushes its
      name, and `ls` sets the listed items as the children at the path. */
  function Step(s: Session, c: Command): (r: Option<Session>)
    ensures c.ChangeDirectory? ==> r.Some? && r.value.root == s.root
    ensures c.List? ==> (r.Some? <==> s.path != [] || s.root.File?)
    ensures r.Some? && c.List? ==> r.value.path == s.path && ChildrenAt(r.value.root, s.path, ListToFileSystem(c.output))
  {
    match c
    case ChangeDirectory(dir) =>
      if dir == ".." then Some(Session(s.root, if s.path == [] then [] else s.path[..|s.path| - 1]))
      else Some(Session(s.root, s.path + [dir]))
    case List(out) =>
      var children := ListToFileSystem(out);
      match SetAtPath(s.root, s.path, children)
      case None => None
      case Some(root) =>
        if s.path == [] then Some(Session(root, s.path))
        else
          ReplaceSets(s.root, s.path, children);
          Some(Session(root, s.path))
  }

  /** The session after the commands, `None` once one of them panics. */
  function Run(commands: seq<Command>): Option<Session>
    decreases |commands|
  {
    if commands == [] then Some(InitialSession())
    else
      match Run(commands[..|commands| - 1])
      case None => None
      case Some(s) => Step(s, commands[|commands| - 1])
  }

  /** The tree `build_filesystem` returns. */
  function Build(commands: seq<Command>): Option<FileSystem> {
    match Run(commands)
    case None => None
    case Some(s) => Some(s.root)
  }

  /** A panic ends the session for good. */
  lemma {:induction false} RunStopsAtPanic(commands: seq<Command>, k: nat)
    requires k <= |commands| && Run(commands[..k]) == None
    ensures Run(commands) == None
    decreases |commands| - k
  {
    if k < |commands| {
      assert commands[..k + 1][..k] == commands[..k];
      RunStopsAtPanic(commands, k + 1);
    } else {
      assert commands[..k] == commands;
    }
  }

  /** The top of the tree stays the directory "/" through the whole
      session. */
  lemma {:induction false} RootStaysRoot(commands: seq<Command>)
    requires Run(commands).Some?
    ensures Run(commands).value.root.Directory? && Run(commands).value.root.name == "/"
    decreases |commands|
  {
    if commands != [] {
      RootStaysRoot(commands[..|commands| - 1]);
    }
  }

  /** A listing before the first `cd` panics, since the path is empty. */
  lemma ListFirstPanics(out: seq<ListOutput>, rest: seq<Command>)
    ensures Build([List(out)] + rest) == None
  {
    var commands := [List(out)] + rest;
    assert commands[..1][..0] == [];
    RunStopsAtPanic(commands, 1);
  }

  /** `build_filesystem`: the path stack and the tree are updated command
      by command, from the directory "/" and an empty path. */
  method BuildFilesystem(commands: seq<Command>) returns (r: Option<FileSystem>)
    ensures r == Build(commands)
  {
    var root := Directory("/", []);
    var path: seq<string> := [];
    for i := 0 to |commands|
      invariant Run(commands[..i]) == Some(Session(root, path))
    {
      assert commands[..i + 1][..i] == commands[..i];
      match commands[i]
      case ChangeDirectory(dir) =>
        if dir == ".." {
          if path != [] {
            path := path[..|path| - 1];
          }
        } else {
          path := path + [dir];
        }
      case List(out) =>
        var rewritten := SetAtPath(root, path, ListToFileSystem(out));
        if rewritten.None? {
          RunStopsAtPanic(commands, i + 1);
          return None;
        }
        root := rewritten.value;
    }
    assert commands[..|commands|] == commands;
    return Some(root);
  }

  // ---------------------------------------------------------------------
  // Sizes and directories
  // ---------------------------------------------------------------------

  /** `get_directory_size`: a file's own size, the sum over the children
      for a directory. */
  function DirectorySize(fs: FileSystem): (total: int)
    ensures total >= 0
    decreases fs
  {
    match fs
    case File(_, size) => size
    case Directory(_, children) =>
      var sizes := seq(|children|, i requires 0 <= i < |children| => DirectorySize(children[i]));
      SumNonNegative(sizes);
      Sum(sizes)
  }

  /** The sizes of all files in the tree, in order. */
  function FileSizes(fs: FileSystem): seq<int>
    decreases fs
  {
    match fs
    case File(_, size) => [size]
    case Directory(_, children) => Concat(seq(|children|, i requires 0 <= i < |children| => FileSizes(children[i])))
  }

  /** A directory's size is the total size of the files anywhere below
      it. */
  lemma {:induction false} DirectorySizeIsFileTotal(fs: FileSystem)
    ensures DirectorySize(fs) == Sum(FileSizes(fs))
    decreases fs
  {
    if fs.Directory? {
      var children := fs.children;
      var lists := seq(|children|, i requires 0 <= i < |children| => FileSizes(children[i]));
      var sizes := seq(|children|, i requires 0 <= i < |children| => DirectorySize(children[i]));
      forall i | 0 <= i < |children| ensures sizes[i] == Sum(lists[i]) {
        DirectorySizeIsFileTotal(children[i]);
      }
      SumConcat(lists, sizes);
    }
  }

  /** `d` is the tree itself or lies somewhere below it. */
  predicate Subtree(d: FileSystem, fs: FileSystem)
    decreases fs
  {
    d == fs || (fs.Directory? && exists c :: c in fs.children && Subtree(d, c))
  }

  /** `get_all_directories`: the directory itself, then the directories
      of each child in turn (pre-order); a file has none. */
  function AllDirectories(fs: FileSystem): (dirs: seq<FileSystem>)
    ensures fs.File? ==> dirs == []
    ensures fs.Directory? ==> |dirs| > 0 && dirs[0] == fs
    decreases fs
  {
    match fs
    case File(_, _) => []
    case Directory(_, children) =>
      [fs] + Concat(seq(|children|, i requires 0 <= i < |children| => AllDirectories(children[i])))
  }

  /** Exactly the directories of the tree are listed, and no file. */
  lemma {:induction false} AllDirectoriesAreSubtrees(fs: FileSystem, d: FileSystem)
    ensures d in AllDirectories(fs) <==> d.Directory? && Subtree(d, fs)
    decreases fs
  {
    if fs.Directory? {
      var children := fs.children;
      var lists := seq(|children|, i requires 0 <= i < |children| => AllDirectories(children[i]));
      assert AllDirectories(fs) == [fs] + Concat(lists);
      InConcat(lists, d);
      forall i | 0 <= i < |children| ensures d in lists[i] <==> d.Directory? && Subtree(d, children[i]) {
        AllDirectoriesAreSubtrees(children[i], d);
      }
      if d in AllDirectories(fs) && d != fs {
        var i :| 0 <= i < |lists| && d in lists[i];
        assert children[i] in children;
      }
      if d.Directory? && Subtree(d, fs) && d != fs {
        var c :| c in children && Subtree(d, c);
        var i :| 0 <= i < |children| && children[i] == c;
        assert d in lists[i];
      }
    }
  }

  /** The sizes that are at most `limit`, in order (`filter`). */
  function AtMost(sizes: seq<int>, limit: int): (kept: seq<int>)
    ensures |kept| <= |sizes|
    ensures forall x :: x in kept <==> x in sizes && x <= limit
  {
    if sizes == [] then []
    else (if sizes[0] <= limit then [sizes[0]] else []) + AtMost(sizes[1..], limit)
  }

  /** `sum_directory_size`: the total of the sizes of all directories of
      size at most 100000, a directory below another counting in both. */
  function SumDirectorySize(root: FileSystem): (total: int)
    ensures 0 <= total <= SmallDirectoryLimit * |AllDirectories(root)|
  {
    var dirs := AllDirectories(root);
    var kept := AtMost(seq(|dirs|, i requires 0 <= i < |dirs| => DirectorySize(dirs[i])), SmallDirectoryLimit);
    assert forall x :: x in kept ==> 0 <= x;
    SumBounded(kept, SmallDirectoryLimit);
    assert SmallDirectoryLimit * |kept| <= SmallDirectoryLimit * |dirs|;
    Sum(kept)
  }

  /** Numbers between 0 and `m` sum to at most `m` times their count. */
  lemma {:induction false} SumBounded(s: seq<int>, m: int)
    requires forall x :: x in s ==> 0 <= x <= m
    ensures 0 <= Sum(s) <= m * |s|
  {
    if s != [] {
      var n := |s| - 1;
      assert forall x :: x in s[..n] ==> x in s;
      SumBounded(s[..n], m);
      assert s[n] in s;
      assert Sum(s) == Sum(s[..n]) + s[n];
      assert m * |s| == m * n + m;
    }
  }

  // ---------------------------------------------------------------------
  // The example session
  // ---------------------------------------------------------------------

  function ExampleCommands(): seq<Command> {
    [ChangeDirectory("/"),
     List([Dir("a"), FileEntry("b.txt", 14848514), FileEntry("c.dat", 8504156), Dir("d")]),
     ChangeDirectory("a"),
     List([Dir("e"), FileEntry("f", 29116), FileEntry("g", 2557), FileEntry("h.lst", 62596)]),
     ChangeDirectory("e"),
     List([FileEntry("i", 584)]),
     ChangeDirectory(".."),
     ChangeDirectory(".."),
     ChangeDirectory("d"),
     List([FileEntry("j", 4060174), FileEntry("d.log", 8033020), FileEntry("d.ext", 5626152), FileEntry("k", 7214296)])]
  }

  function ExampleE(): FileSystem {
    Directory("e", [File("i", 584)])
  }

  function ExampleA(): FileSystem {
    Directory("a", [ExampleE(), File("f", 29116), File("g", 2557), File("h.lst", 62596)])
  }

  function ExampleD(): FileSystem {
    Directory("d", [File("j", 4060174), File("d.log", 8033020), File("d.ext", 5626152), File("k", 7214296)])
  }

  /** The tree the example session builds. */
  function ExampleFileSystem(): FileSystem {
    Directory("/", [ExampleA(), File("b.txt", 14848514), File("c.dat", 8504156), ExampleD()])
  }

  /** One more command continues from the session so far. */
  lemma RunSnoc(commands: seq<Command>, c: Command, s: Session)
    requires Run(commands) == Some(s)
    ensures Run(commands + [c]) == Step(s, c)
  {
    assert (commands + [c])[..|commands|] == commands;
  }

  /** The example's commands one at a time. */
  lemma ExamplePrefix(k: nat, s: Session)
    requires k < |ExampleCommands()| && Run(ExampleCommands()[..k]) == Some(s)
    ensures Run(ExampleCommands()[..k + 1]) == Step(s, ExampleCommands()[k])
  {
    assert ExampleCommands()[..k + 1] == ExampleCommands()[..k] + [ExampleCommands()[k]];
    RunSnoc(ExampleCommands()[..k], ExampleCommands()[k], s);
  }

  function ExampleTop(): FileSystem {
    Directory("/", [Directory("a", []), File("b.txt", 14848514), File("c.dat", 8504156), Directory("d", [])])
  }

  function ExampleTopA(): FileSystem {
    Directory("/", [Directory("a", [Directory("e", []), File("f", 29116), File("g", 2557), File("h.lst", 62596)]),
      File("b.txt", 14848514), File("c.dat", 8504156), Directory("d", [])])
  }

  function ExampleTopE(): FileSystem {
    Directory("/", [ExampleA(), File("b.txt", 14848514), File("c.dat", 8504156), Directory("d", [])])
  }

  lemma ExampleFirstListing()
    ensures Run(ExampleCommands()[..2]) == Some(Session(ExampleTop(), ["/"]))
  {
    assert ExampleCommands()[..0] == [];
    ExamplePrefix(0, InitialSession());
    assert ExampleCommands()[0] == ChangeDirectory("/");
    assert Step(InitialSession(), ChangeDirectory("/")) == Some(Session(Directory("/", []), [] + ["/"]));
    assert [] + ["/"] == ["/"];
    ExamplePrefix(1, Session(Directory("/", []), ["/"]));
    assert ListToFileSystem(ExampleCommands()[1].output) == ExampleTop().children;
  }

  lemma ExampleListA()
    ensures Replace(ExampleTop(), ["/", "a"], ListToFileSystem(ExampleCommands()[3].output)) == ExampleTopA()
  {
    var nodes := ListToFileSystem(ExampleCommands()[3].output);
    assert nodes == [Directory("e", []), File("f", 29116), File("g", 2557), File("h.lst", 62596)];
    var r := Replace(ExampleTop(), ["/", "a"], nodes);
    assert r.children[0] == Directory("a", nodes);
    assert r.children == ExampleTopA().children;
  }

  lemma ExampleSecondListing()
    ensures Run(ExampleCommands()[..4]) == Some(Session(ExampleTopA(), ["/", "a"]))
  {
    ExampleEnterA();
    ExamplePrefix(3, Session(ExampleTop(), ["/", "a"]));
    ExampleListA();
  }

  lemma ExampleEnterA()
    ensures Run(ExampleCommands()[..3]) == Some(Session(ExampleTop(), ["/", "a"]))
  {
    ExampleFirstListing();
    ExamplePrefix(2, Session(ExampleTop(), ["/"]));
    assert ExampleCommands()[2] == ChangeDirectory("a");
    assert ["/"] + ["a"] == ["/", "a"];
  }

  lemma ExampleListE()
    ensures Replace(ExampleTopA(), ["/", "a", "e"], ListToFileSystem(ExampleCommands()[5].output)) == ExampleTopE()
  {
    var nodes := ListToFileSystem(ExampleCommands()[5].output);
    assert nodes == [File("i", 584)];
    var a := Replace(ExampleTopA().children[0], ["a", "e"], nodes);
    assert a.children[0] == ExampleE();
    assert a.children == ExampleA().children;
    var r := Replace(ExampleTopA(), ["/", "a", "e"], nodes);
    assert r.children == ExampleTopE().children;
  }

  lemma ExampleThirdListing()
    ensures Run(ExampleCommands()[..6]) == Some(Session(ExampleTopE(), ["/", "a", "e"]))
  {
    ExampleEnterE();
    ExamplePrefix(5, Session(ExampleTopA(), ["/", "a", "e"]));
    ExampleListE();
  }

  lemma ExampleEnterE()
    ensures Run(ExampleCommands()[..5]) == Some(Session(ExampleTopA(), ["/", "a", "e"]))
  {
    ExampleSecondListing();
    ExamplePrefix(4, Session(ExampleTopA(), ["/", "a"]));
    assert ExampleCommands()[4] == ChangeDirectory("e");
    assert ["/", "a"] + ["e"] == ["/", "a", "e"];
  }

  lemma ExampleUp()
    ensures Run(ExampleCommands()[..8]) == Some(Session(ExampleTopE(), ["/"]))
  {
    ExampleThirdListing();
    ExamplePrefix(6, Session(ExampleTopE(), ["/", "a", "e"]));
    assert ExampleCommands()[6] == ChangeDirectory("..");
    assert ["/", "a", "e"][..2] == ["/", "a"];
    ExamplePrefix(7, Session(ExampleTopE(), ["/", "a"]));
    assert ExampleCommands()[7] == ChangeDirectory("..");
    assert ["/", "a"][..1] == ["/"];
  }

  lemma ExampleClimb()
    ensures Run(ExampleCommands()[..9]) == Some(Session(ExampleTopE(), ["/", "d"]))
  {
    ExampleUp();
    ExamplePrefix(8, Session(ExampleTopE(), ["/"]));
    assert ExampleCommands()[8] == ChangeDirectory("d");
    assert ["/"] + ["d"] == ["/", "d"];
  }

  lemma ExampleListD()
    ensures Replace(ExampleTopE(), ["/", "d"], ListToFileSystem(ExampleCommands()[9].output)) == ExampleFileSystem()
  {
    var nodes := ListToFileSystem(ExampleCommands()[9].output);
    assert nodes == ExampleD().children;
    var r := Replace(ExampleTopE(), ["/", "d"], nodes);
    assert r.children[0] == ExampleA();
    assert r.children == ExampleFileSystem().children;
  }

  /** The example session builds the example tree. */
  lemma ExampleBuild()
    ensures Build(ExampleCommands()) == Some(ExampleFileSystem())
  {
    ExampleClimb();
    ExamplePrefix(9, Session(ExampleTopE(), ["/", "d"]));
    ExampleListD();
    assert ExampleCommands()[..10] == ExampleCommands();
  }

  lemma SumFour(a: int, b: int, c: int, d: int)
    ensures Sum([a, b, c, d]) == a + b + c + d
  {
    assert [a][..0] == [];
    assert Sum([a]) == a;
    assert [a, b][..1] == [a];
    assert Sum([a, b]) == a + b;
    assert [a, b, c][..2] == [a, b];
    assert Sum([a, b, c]) == a + b + c;
    assert [a, b, c, d][..3] == [a, b, c];
  }

  lemma ConcatFour<T>(w: seq<T>, x: seq<T>, y: seq<T>, z: seq<T>)
    ensures Concat([w, x, y, z]) == w + x + y + z
  {
    assert [w][..0] == [];
    assert Concat([w]) == w;
    assert [w, x][..1] == [w];
    assert Concat([w, x]) == w + x;
    assert [w, x, y][..2] == [w, x];
    assert Concat([w, x, y]) == w + x + y;
    assert [w, x, y, z][..3] == [w, x, y];
  }

  lemma ExampleSizes()
    ensures DirectorySize(ExampleE()) == 584
    ensures DirectorySize(ExampleA()) == 94853
    ensures DirectorySize(ExampleD()) == 24933642
    ensures DirectorySize(ExampleFileSystem()) == 48381165
  {
    var e := seq(1, i requires 0 <= i < 1 => DirectorySize(ExampleE().children[i]));
    assert e == [584];
    assert [584][..0] == [];
    var a := seq(4, i requires 0 <= i < 4 => DirectorySize(ExampleA().children[i]));
    assert a == [584, 29116, 2557, 62596];
    SumFour(584, 29116, 2557, 62596);
    var d := seq(4, i requires 0 <= i < 4 => DirectorySize(ExampleD().children[i]));
    assert d == [4060174, 8033020, 5626152, 7214296];
    SumFour(4060174, 8033020, 5626152, 7214296);
    var top := seq(4, i requires 0 <= i < 4 => DirectorySize(ExampleFileSystem().children[i]));
    assert top == [94853, 14848514, 8504156, 24933642];
    SumFour(94853, 14848514, 8504156, 24933642);
  }

  lemma ExampleInnerDirectories()
    ensures AllDirectories(ExampleA()) == [ExampleA(), ExampleE()]
    ensures AllDirectories(ExampleD()) == [ExampleD()]
  {
    var none: seq<FileSystem> := [];
    var e := seq(1, i requires 0 <= i < 1 => AllDirectories(ExampleE().children[i]));
    assert e == [none];
    assert e[..0] == [];
    assert Concat(e) == Concat(e[..0]) + e[0] == [];
    assert AllDirectories(ExampleE()) == [ExampleE()];
    var a := seq(4, i requires 0 <= i < 4 => AllDirectories(ExampleA().children[i]));
    assert a == [[ExampleE()], none, none, none];
    ConcatFour([ExampleE()], none, none, none);
    var d := seq(4, i requires 0 <= i < 4 => AllDirectories(ExampleD().children[i]));
    assert d == [none, none, none, none];
    ConcatFour(none, none, none, none);
  }

  lemma ExampleDirectories()
    ensures AllDirectories(ExampleFileSystem()) == [ExampleFileSystem(), ExampleA(), ExampleE(), ExampleD()]
  {
    var none: seq<FileSystem> := [];
    ExampleInnerDirectories();
    var top := seq(4, i requires 0 <= i < 4 => AllDirectories(ExampleFileSystem().children[i]));
    assert top == [[ExampleA(), ExampleE()], none, none, [ExampleD()]];
    ConcatFour([ExampleA(), ExampleE()], none, none, [ExampleD()]);
  }

  /** The directories of size at most 100000 in the example are a and e,
      of sizes 94853 and 584. */
  lemma ExampleSumDirectorySize()
    ensures SumDirectorySize(ExampleFileSystem()) == 95437
  {
    ExampleDirectories();
    ExampleSizes();
    var dirs := AllDirectories(ExampleFileSystem());
    var sizes := seq(|dirs|, i requires 0 <= i < |dirs| => DirectorySize(dirs[i]));
    assert sizes == [48381165, 94853, 584, 24933642];
    assert sizes[3..][1..] == [];
    assert AtMost(sizes[3..], SmallDirectoryLimit) == [];
    assert sizes[2..][1..] == sizes[3..];
    assert AtMost(sizes[2..], SmallDirectoryLimit) == [584];
    assert sizes[1..][1..] == sizes[2..];
    assert AtMost(sizes[1..], SmallDirectoryLimit) == [94853, 584];
    assert AtMost(sizes, SmallDirectoryLimit) == [94853, 584];
    assert [94853, 584][..1] == [94853];
    assert [94853][..0] == [];
  }

  lemma ExampleTopListingsPrintable()
    ensures PrintableCommand(ExampleCommands()[1])
    ensures PrintableCommand(ExampleCommands()[3])
  {
    assert PlainName("b.txt") && PlainName("c.dat");
    assert PlainName("h.lst");
  }

  lemma ExampleInnerListingsPrintable()
    ensures PrintableCommand(ExampleCommands()[5])
    ensures PrintableCommand(ExampleCommands()[9])
  {
    assert PlainName("d.log") && PlainName("d.ext");
  }

  /** The example session, printed, reads back as its commands. */
  lemma ExampleSessionReadsBack()
    ensures ParseInput(RenderSession(ExampleCommands())) == Some(ExampleCommands())
  {
    var cs := ExampleCommands();
    ExampleTopListingsPrintable();
    ExampleInnerListingsPrintable();
    assert forall i :: 0 <= i < |cs| && i !in {1, 3, 5, 9} ==> cs[i].ChangeDirectory? && PlainName(cs[i].target);
    ParseRenderSession(cs);
  }
}
