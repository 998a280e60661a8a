/** Compound files: batches of mkdir, rmdir and write commands, one per line. */
module Compound {
  import opened Wrappers
  import opened Text
  import opened Namespace
  import Schemas
  import O = Operations
  import opened Runs
  import opened SchemaFs

  // ---------------------------------------------------------------- what a buffer says

  /** The buffer up to its first NUL, where the C string functions stop. */
  function CString(buf: string): string {
    buf[..Span(buf, '\0')]
  }

  /** The line has the spaces the handler steps over; without them it would follow a NULL pointer. */
  predicate LineOk(line: string) {
    var k := Span(line, ' ');
    k < |line| && (line[..k] == "write" ==> ' ' in line[k + 1..])
  }

  /** The command of a line, if it is a known one. */
  function Parse(line: string): Option<O.Op>
    requires LineOk(line)
  {
    var k := Span(line, ' ');
    var cmd, filename := line[..k], line[k + 1..];
    if cmd == "mkdir" then Some(O.OpMkdir(filename))
    else if cmd == "rmdir" then Some(O.OpRmdir(filename))
    else if cmd == "write" then
      var j := Span(filename, ' ');
      assert filename[..|filename|] == filename;
      Some(O.OpWrite(filename[..j], filename[j + 1..]))
    else None
  }

  predicate LinesOk(lines: seq<string>) {
    forall i :: 0 <= i < |lines| ==> LineOk(lines[i])
  }

  function ParseAll(lines: seq<string>): seq<O.Op>
    requires LinesOk(lines)
  {
    if lines == [] then []
    else match Parse(lines[0])
      case Some(op) => [op] + ParseAll(lines[1..])
      case None => ParseAll(lines[1..])
  }

  predicate BufferOk(buf: string) { LinesOk(Tokens(CString(buf), '\n')) }

  /** The operations a compound buffer asks for. */
  function Commands(buf: string): seq<O.Op>
    requires BufferOk(buf)
  {
    ParseAll(Tokens(CString(buf), '\n'))
  }

  // ---------------------------------------------------------------- the handler

  /** _compound_line_handler; results of mkdir and rmdir are ignored, as in the source. */
  method LineHandler(m: Mount, line: string, setter: O.Setter)
    requires m.Valid() && LineOk(line)
    requires Parse(line).Some? ==> O.Legal(m.s, Parse(line).value)
    modifies m, m.st.ids.Keys
    ensures m.Valid()
    ensures m.s == match Parse(line) case None => old(m.s) case Some(op) => O.Apply(old(m.s), op, setter)
    ensures forall o {:trigger o in m.st.ids} :: o in m.st.ids ==> o in old(m.st.ids) || fresh(o)
  {
    var k := Span(line, ' ');
    var cmd, filename := line[..k], line[k + 1..];
    if cmd == "mkdir" {
      var r := m.Mkdir(filename);
    } else if cmd == "rmdir" {
      var r, freed := m.Rmdir(filename);
    } else if cmd == "write" {
      var j := Span(filename, ' ');
      assert filename[..|filename|] == filename;
      m.WriteAt(filename[..j], filename[j + 1..], setter);
    }
  }

  /** The first line of a text and its command come before those of the rest. */
  lemma FrontLine(text: string)
    requires text != [] && text[0] != '\n' && LinesOk(Tokens(text, '\n'))
    ensures var k := Span(text, '\n');
      && LineOk(text[..k]) && LinesOk(Tokens(text[k..], '\n')) && |Tokens(text, '\n')| == 1 + |Tokens(text[k..], '\n')|
      && ParseAll(Tokens(text, '\n')) ==
           match Parse(text[..k])
           case None => ParseAll(Tokens(text[k..], '\n'))
           case Some(op) => [op] + ParseAll(Tokens(text[k..], '\n'))
  {
    var k := Span(text, '\n');
    var lines := Tokens(text, '\n');
    assert lines[0] == text[..k] && lines[1..] == Tokens(text[k..], '\n');
    assert LineOk(lines[0]);
  }

  /** What is left to run once the first line of a buffer has been handled. */
  lemma FirstLine(s: State, text: string, setter: O.Setter)
    requires Tree(s) && text != [] && text[0] != '\n' && LinesOk(Tokens(text, '\n'))
    requires LegalRun(s, ParseAll(Tokens(text, '\n')), setter)
    ensures var k := Span(text, '\n');
      && LineOk(text[..k]) && LinesOk(Tokens(text[k..], '\n')) && |Tokens(text, '\n')| == 1 + |Tokens(text[k..], '\n')|
      && match Parse(text[..k])
         case None => ParseAll(Tokens(text[k..], '\n')) == ParseAll(Tokens(text, '\n'))
         case Some(op) =>
           && O.Legal(s, op) && Tree(O.Apply(s, op, setter))
           && LegalRun(O.Apply(s, op, setter), ParseAll(Tokens(text[k..], '\n')), setter)
           && Run(O.Apply(s, op, setter), ParseAll(Tokens(text[k..], '\n')), setter)
              == Run(s, ParseAll(Tokens(text, '\n')), setter)
  {
    FrontLine(text);
    var k := Span(text, '\n');
    if Parse(text[..k]).Some? {
      var op, rest := Parse(text[..k]).value, ParseAll(Tokens(text[k..], '\n'));
      assert ([op] + rest)[0] == op && ([op] + rest)[1..] == rest;
      O.ApplyTree(s, op, setter);
    }
  }

  /** The lines of text are still to be run from s, to end in goal. */
  ghost predicate ToRun(s: State, text: string, setter: O.Setter, goal: State) {
    && Tree(s) && LinesOk(Tokens(text, '\n')) && LegalRun(s, ParseAll(Tokens(text, '\n')), setter)
    && Run(s, ParseAll(Tokens(text, '\n')), setter) == goal
  }

  /** Handle the line at the front of text. */
  method FirstHandled(m: Mount, text: string, setter: O.Setter, ghost goal: State) returns (rest: string)
    requires m.Valid() && text != [] && text[0] != '\n' && ToRun(m.s, text, setter, goal)
    modifies m, m.st.ids.Keys
    ensures m.Valid() && ToRun(m.s, rest, setter, goal) && |rest| < |text|
    ensures |Tokens(text, '\n')| == 1 + |Tokens(rest, '\n')|
    ensures forall o {:trigger o in m.st.ids} :: o in m.st.ids ==> o in old(m.st.ids) || fresh(o)
  {
    var k := Span(text, '\n');
    FirstLine(m.s, text, setter);
    LineHandler(m, text[..k], setter);
    rest := text[k..];
  }

  /** schemafs_compound_handler; count is the number of lines it logs. */
  method Handler(m: Mount, buf: string, setter: O.Setter) returns (count: nat)
    requires m.Valid() && BufferOk(buf) && LegalRun(m.s, Commands(buf), setter)
    modifies m, m.st.ids.Keys
    ensures m.Valid() && m.s == Run(old(m.s), Commands(buf), setter)
    ensures count == |Tokens(CString(buf), '\n')|
    ensures forall o {:trigger o in m.st.ids} :: o in m.st.ids ==> o in old(m.st.ids) || fresh(o)
  {
    var text := CString(buf);
    ghost var goal := Run(m.s, Commands(buf), setter);
    count := 0;
    while text != []
      invariant m.Valid() && ToRun(m.s, text, setter, goal)
      invariant count + |Tokens(text, '\n')| == |Tokens(CString(buf), '\n')|
      invariant forall o {:trigger o in m.st.ids} :: o in m.st.ids ==> o in old(m.st.ids) || fresh(o)
      decreases |text|
    {
      if text[0] == '\n' {
        text := text[1..];
      } else {
        text := FirstHandled(m, text, setter, goal);
        count := count + 1;
      }
    }
  }

  // ---------------------------------------------------------------- scripts

  /** A blank line, or a line with a command. */
  datatype Line = Blank | Do(op: O.Op)

  /** The command can be written on one line: only a written file's name must be free of spaces. */
  predicate Printable(op: O.Op) {
    match op
    case OpMkdir(path) => '\n' !in path && '\0' !in path
    case OpRmdir(path) => '\n' !in path && '\0' !in path
    case OpWrite(path, data) => '\n' !in path && '\0' !in path && ' ' !in path && '\n' !in data && '\0' !in data
    case _ => false
  }

  function Print(op: O.Op): string
    requires Printable(op)
  {
    match op
    case OpMkdir(path) => "mkdir " + path
    case OpRmdir(path) => "rmdir " + path
    case OpWrite(path, data) => "write " + path + " " + data
  }

  predicate PrintableAll(lines: seq<Line>) {
    forall i :: 0 <= i < |lines| && lines[i].Do? ==> Printable(lines[i].op)
  }

  /** The lines, with newlines between them. */
  function Script(lines: seq<Line>): string
    requires PrintableAll(lines)
  {
    if lines == [] then ""
    else
      var first := if lines[0].Do? then Print(lines[0].op) else "";
      if |lines| == 1 then first else first + ['\n'] + Script(lines[1..])
  }

  function OpsOf(lines: seq<Line>): seq<O.Op> {
    if lines == [] then []
    else (if lines[0].Do? then [lines[0].op] else []) + OpsOf(lines[1..])
  }

  lemma NotInBoth(a: string, b: string, c: char)
    requires c !in a && c !in b
    ensures c !in a + b
  {
  }

  /** A printed command is one line. */
  lemma PrintOneLine(op: O.Op, c: char)
    requires Printable(op) && (c == '\n' || c == '\0')
    ensures c !in Print(op)
  {
    match op
    case OpMkdir(path) => NotInBoth("mkdir ", path, c);
    case OpRmdir(path) => NotInBoth("rmdir ", path, c);
    case OpWrite(path, data) =>
      NotInBoth("write ", path, c);
      NotInBoth("write " + path, " ", c);
      NotInBoth("write " + path + " ", data, c);
  }

  lemma WordBehind(word: string, rest: string)
    requires ' ' !in word
    ensures var line := word + " " + rest;
      Span(line, ' ') == |word| && line[..|word|] == word && line[|word| + 1..] == rest
  {
    SpanAt(word + " " + rest, ' ', |word|);
  }

  /** The three commands, and what they are given. */
  lemma LineCommands(path: string, data: string)
    ensures LineOk("mkdir " + path) && Parse("mkdir " + path) == Some(O.OpMkdir(path))
    ensures LineOk("rmdir " + path) && Parse("rmdir " + path) == Some(O.OpRmdir(path))
    ensures ' ' !in path ==>
      LineOk("write " + path + " " + data) && Parse("write " + path + " " + data) == Some(O.OpWrite(path, data))
  {
    assert "mkdir " == "mkdir" + " " && "rmdir " == "rmdir" + " " && "write " == "write" + " ";
    WordBehind("mkdir", path);
    WordBehind("rmdir", path);
    if ' ' !in path {
      assert "write " + path + " " + data == "write" + " " + (path + " " + data);
      WordBehind("write", path + " " + data);
      WordBehind(path, data);
    }
  }

  lemma PrintParses(op: O.Op)
    requires Printable(op)
    ensures LineOk(Print(op)) && Parse(Print(op)) == Some(op)
    ensures Print(op) != [] && '\n' !in Print(op) && '\0' !in Print(op)
  {
    PrintOneLine(op, '\n');
    PrintOneLine(op, '\0');
    match op
    case OpMkdir(path) => LineCommands(path, "");
    case OpRmdir(path) => LineCommands(path, "");
    case OpWrite(path, data) => LineCommands(path, data);
  }

  lemma ParseAllJoin(a: seq<string>, b: seq<string>)
    requires LinesOk(a) && LinesOk(b)
    ensures LinesOk(a + b) && ParseAll(a + b) == ParseAll(a) + ParseAll(b)
  {
    if a == [] {
      assert a + b == b;
    } else {
      assert (a + b)[1..] == a[1..] + b;
      ParseAllJoin(a[1..], b);
    }
  }

  lemma {:induction false} ScriptTokens(lines: seq<Line>)
    requires PrintableAll(lines)
    ensures '\0' !in Script(lines)
    ensures LinesOk(Tokens(Script(lines), '\n')) && ParseAll(Tokens(Script(lines), '\n')) == OpsOf(lines)
  {
    if lines != [] {
      var first := if lines[0].Do? then Print(lines[0].op) else "";
      if lines[0].Do? {
        PrintParses(lines[0].op);
        TokensOfWord(first, '\n');
        assert ParseAll([first]) == [lines[0].op];
      }
      ScriptTokens(lines[1..]);
      if |lines| > 1 {
        TokensJoin(first, Script(lines[1..]), '\n');
        ParseAllJoin(Tokens(first, '\n'), Tokens(Script(lines[1..]), '\n'));
      }
    }
  }

  /** A batch printed one command per line asks for exactly its commands, in order. */
  lemma ScriptCommands(lines: seq<Line>)
    requires PrintableAll(lines)
    ensures BufferOk(Script(lines)) && Commands(Script(lines)) == OpsOf(lines)
  {
    ScriptTokens(lines);
    var text := Script(lines);
    assert text[..|text|] == text;
    SpanAt(text, '\0', |text|);
  }

  /** Cutting a buffer at a newline gives two batches that ask for the same commands in turn. */
  lemma CommandsSplit(a: string, b: string)
    requires '\0' !in a && BufferOk(a) && BufferOk(b)
    ensures BufferOk(a + ['\n'] + b) && Commands(a + ['\n'] + b) == Commands(a) + Commands(b)
  {
    var w := a + ['\n'] + b;
    var k := Span(b, '\0');
    assert a[..|a|] == a;
    SpanAt(a, '\0', |a|);
    assert w[..|a| + 1 + k] == a + ['\n'] + b[..k];
    SpanAt(w, '\0', |a| + 1 + k);
    TokensJoin(a, b[..k], '\n');
    ParseAllJoin(Tokens(a, '\n'), Tokens(b[..k], '\n'));
  }

  lemma TailOfJoined(a: seq<O.Op>, b: seq<O.Op>)
    requires a != []
    ensures (a + b)[0] == a[0] && (a + b)[1..] == a[1..] + b
  {
  }

  /** Running two lists of operations one after the other is running their concatenation. */
  lemma {:induction false} RunAppend(s: State, a: seq<O.Op>, b: seq<O.Op>, setter: O.Setter)
    requires Tree(s) && LegalRun(s, a, setter) && LegalRun(Run(s, a, setter), b, setter)
    ensures LegalRun(s, a + b, setter) && Run(s, a + b, setter) == Run(Run(s, a, setter), b, setter)
    decreases |a|
  {
    if a == [] {
      assert a + b == b;
    } else {
      TailOfJoined(a, b);
      O.ApplyTree(s, a[0], setter);
      RunAppend(O.Apply(s, a[0], setter), a[1..], b, setter);
    }
  }

  /** Writing a batch of commands does what applying them one by one does. */
  method Batch(m: Mount, lines: seq<Line>, setter: O.Setter)
    requires m.Valid() && PrintableAll(lines) && LegalRun(m.s, OpsOf(lines), setter)
    modifies m, m.st.ids.Keys
    ensures m.Valid() && m.s == Run(old(m.s), OpsOf(lines), setter)
    ensures forall o {:trigger o in m.st.ids} :: o in m.st.ids ==> o in old(m.st.ids) || fresh(o)
  {
    ScriptCommands(lines);
    var count := Handler(m, Script(lines), setter);
  }

  /** A batch can ask for what the kernel never passes on: removing the root of a mounted filesystem. */
  lemma RemovesRoot(s: State, setter: O.Setter)
    requires Tree(s) && !s.ents[ROOT].hidden && s.ents[ROOT].schema.kind == Schemas.Subdir
    ensures BufferOk("rmdir /") && Commands("rmdir /") == [O.OpRmdir("/")]
    ensures !LegalRun(s, Commands("rmdir /"), setter)
  {
    var lines := [Do(O.OpRmdir("/"))];
    assert Script(lines) == "rmdir " + "/";
    assert "rmdir " + "/" == "rmdir /";
    assert OpsOf(lines) == [O.OpRmdir("/")] + OpsOf(lines[1..]);
    ScriptCommands(lines);
    assert Tokens("/", '/') == Tokens("/"[1..], '/') == [];
    assert Search(s, ROOT, "/") == Some(ROOT);
    assert !O.RmdirLegal(s, "/");
  }
}
