/** Where the duplicate checks of mkdir and rename look, and what follows. */
module Duplicates {
  import opened Wrappers
  import opened Text
  import opened Schemas
  import opened Namespace
  import opened Grafting
  import opened Creating
  import opened Operations
  import opened Neatness
  import opened Runs
  import opened Renaming
  import opened Relinking
  import Compound
  import Observing

  /** The directory mkdir would work in: an OBJECT that is not hidden. */
  predicate Target(s: State, path: string, d: nat)
    requires Shape(s)
  {
    Search(s, ROOT, DirName(path)) == Some(d) && !s.ents[d].hidden && s.ents[d].schema.kind == Object
  }

  /** mkdir refuses a name as taken exactly when the ROOT directory has it, wherever the path leads. */
  lemma MkdirRefuses(s: State, path: string, d: nat)
    requires Shape(s) && Target(s, path, d) && Ordinary(BaseName(path))
    ensures Mkdir(s, path).1 == Failed(EEXIST) <==> FindName(s, s.ents[ROOT].kids, BaseName(path)).Some?
    ensures Mkdir(s, path).1 == Done <==> FindName(s, s.ents[ROOT].kids, BaseName(path)) == None
  {
    DuplicateCheck(s, d, BaseName(path));
  }

  lemma NeatTidied(s: State)
    requires Neat(s)
    ensures Unique(s) && Tidied(s.ents)
  {
    NeatNames(s);
    forall n | n in s.ents
      ensures TidyForest(s.ents[n].schema.children)
    {
      assert NeatAt(s, n);
    }
  }

  /** The path's directory is found again after the new directory was made. */
  lemma SameDir(s: State, t: State, path: string, d: nat, x: Template, hidden: bool)
    requires Shape(s) && Search(s, ROOT, DirName(path)) == Some(d) && d in s.ents
    requires FindName(s, s.ents[d].kids, BaseName(path)) == None
    requires t == Graft(s, d, x, BaseName(path), hidden)
    ensures Shape(t) && Search(t, ROOT, DirName(path)) == Some(d)
  {
    GraftShape(s, d, x, BaseName(path), hidden);
    GraftKeepsLookup(s, d, x, BaseName(path), hidden, ROOT, Tokens(DirName(path), '/'));
  }

  /**
   * Making a directory a second time is refused exactly in the root directory. Elsewhere it succeeds
   * again and leaves two children of one name.
   */
  lemma MkdirTwice(s: State, path: string)
    requires Neat(s) && Mkdir(s, path).1 == Done && Search(s, ROOT, path) == None
    ensures var t, d := Mkdir(s, path).0, Search(s, ROOT, DirName(path)).value;
      && Shape(t) && Unique(t)
      && Mkdir(t, path).1 == (if d == ROOT then Failed(EEXIST) else Done)
      && (d != ROOT ==> Shape(Mkdir(t, path).0) && !Unique(Mkdir(t, path).0))
  {
    var t, d, c := Mkdir(s, path).0, Search(s, ROOT, DirName(path)).value, BaseName(path);
    NeatTidied(s);
    MkdirUniqueIff(s, path);
    CheckedName(s, d, path);
    SearchBreakup(s, path, d);
    DuplicateCheck(s, d, c);
    var x := MkdirTemplate(s.ents[d].schema, c);
    var hidden := NewEntry(x, d, []).hidden;
    GraftTidied(s, d, x, c, hidden);
    GraftEntry(s, d, x, c, hidden, d);
    GraftFind(s, d, x, c, hidden, ROOT, c);
    GraftFind(s, d, x, c, hidden, d, c);
    SameDir(s, t, path, d, x, hidden);
    DuplicateCheck(t, d, c);
    if d != ROOT {
      SearchBreakup(t, path, d);
      MkdirUniqueIff(t, path);
    }
  }

  // ---------------------------------------------------------------- mounted filesystems

  lemma MkdirRootKept(s: State, path: string)
    requires Shape(s)
    ensures var t := Mkdir(s, path).0; ROOT in t.ents && t.ents[ROOT].schema == s.ents[ROOT].schema
  {
    if Mkdir(s, path).1.Done? {
      var d := Search(s, ROOT, DirName(path)).value;
      var x := MkdirTemplate(s.ents[d].schema, BaseName(path));
      GraftEntry(s, d, x, x.name, NewEntry(x, d, []).hidden, ROOT);
    }
  }

  lemma RmdirRootKept(s: State, path: string)
    requires Tree(s) && RmdirLegal(s, path)
    ensures var t := Rmdir(s, path).0; ROOT in t.ents && t.ents[ROOT].schema == s.ents[ROOT].schema
  {
    if Rmdir(s, path).1.Done? { RemoveExactly(s, Search(s, ROOT, path).value, ROOT); }
  }

  lemma RenameRootKept(s: State, oldpath: string, newpath: string)
    requires Tree(s) && RenameLegal(s, oldpath, newpath)
    ensures var t := Rename(s, oldpath, newpath).0; ROOT in t.ents && t.ents[ROOT].schema == s.ents[ROOT].schema
  {
    if Rename(s, oldpath, newpath).1.Done? {
      var e, p := Search(s, ROOT, oldpath).value, Search(s, ROOT, DirName(newpath)).value;
      MoveEntry(s, e, p, BaseName(newpath), ROOT);
    }
  }

  /** No operation replaces the root or its template. */
  lemma RootKept(s: State, op: Op, setter: Setter)
    requires Tree(s) && Legal(s, op)
    ensures var t := Apply(s, op, setter); ROOT in t.ents && t.ents[ROOT].schema == s.ents[ROOT].schema
  {
    match op
    case OpMkdir(path) => MkdirRootKept(s, path);
    case OpRmdir(path) => RmdirRootKept(s, path);
    case OpCreate(path) => Observing.MakeKeeps(s, ROOT, Tokens(path, '/'), ROOT);
    case OpSymlink(_, path) => Observing.MakeKeeps(s, ROOT, Tokens(path, '/'), ROOT);
    case OpUnlink(_) =>
    case OpRename(o, n) => RenameRootKept(s, o, n);
    case OpWrite(_, _) =>
  }

  lemma {:induction false} RunRootKept(s: State, ops: seq<Op>, setter: Setter)
    requires Tree(s) && LegalRun(s, ops, setter)
    ensures Run(s, ops, setter).ents[ROOT].schema == s.ents[ROOT].schema
    decreases |ops|
  {
    if ops != [] {
      ApplyTree(s, ops[0], setter);
      RootKept(s, ops[0], setter);
      RunRootKept(Apply(s, ops[0], setter), ops[1..], setter);
    }
  }

  /** A path that mkdir accepts and that names nothing. */
  predicate FreshMkdir(s: State, path: string)
    requires Shape(s)
  {
    Mkdir(s, path).1 == Done && Search(s, ROOT, path) == None
  }

  /** Where the root is a SUBDIR, mkdir never works in it, so the same mkdir always succeeds again. */
  lemma MkdirAlwaysTwice(s: State, path: string)
    requires Neat(s) && s.ents[ROOT].schema.kind == Subdir && FreshMkdir(s, path)
    ensures var t := Mkdir(s, path).0;
      Shape(t) && Unique(t) && Mkdir(t, path).1 == Done && Shape(Mkdir(t, path).0) && !Unique(Mkdir(t, path).0)
  {
    MkdirTwice(s, path);
  }

  /** The parser makes every root a SUBDIR: after any careful run of a mount the second mkdir succeeds. */
  lemma MountedMkdirTwice(t: Template, ops: seq<Op>, setter: Setter, path: string)
    requires t.kind == Subdir && TidyForest(t.children) && Tree(Initial(t))
    requires LegalRun(Initial(t), ops, setter) && CarefulRun(Initial(t), ops, setter)
    requires FreshMkdir(Run(Initial(t), ops, setter), path)
    ensures var u := Mkdir(Run(Initial(t), ops, setter), path).0;
      Shape(u) && Unique(u) && Mkdir(u, path).1 == Done && Shape(Mkdir(u, path).0) && !Unique(Mkdir(u, path).0)
  {
    InitialNeat(t);
    RunNeatIff(Initial(t), ops, setter);
    RunRootKept(Initial(t), ops, setter);
    assert Initial(t).ents[ROOT].schema == t;
    MkdirAlwaysTwice(Run(Initial(t), ops, setter), path);
  }

  /** Two lines of a compound file that make the same directory. */
  function TwoLines(path: string): string {
    "mkdir " + path + ['\n'] + ("mkdir " + path)
  }

  lemma TwoLinesParse(path: string)
    requires '\n' !in path && '\0' !in path
    ensures Compound.BufferOk(TwoLines(path))
    ensures Compound.Commands(TwoLines(path)) == [OpMkdir(path), OpMkdir(path)]
  {
    var line := Compound.Do(OpMkdir(path));
    var lines := [line, line];
    assert lines[1..] == [line];
    assert Compound.Script([line]) == "mkdir " + path;
    assert Compound.Script(lines) == TwoLines(path);
    Compound.ScriptCommands(lines);
    assert Compound.OpsOf([line]) == [OpMkdir(path)] + Compound.OpsOf([]);
  }

  lemma OneRun(s: State, op: Op, setter: Setter)
    requires Tree(s) && Legal(s, op)
    ensures LegalRun(s, [op], setter) && Run(s, [op], setter) == Apply(s, op, setter)
  {
    ApplyTree(s, op, setter);
    assert [op][1..] == [];
  }

  lemma TwoRun(s: State, op: Op, setter: Setter)
    requires Tree(s) && op.OpMkdir?
    ensures Tree(Apply(s, op, setter)) && LegalRun(s, [op, op], setter)
    ensures Run(s, [op, op], setter) == Apply(Apply(s, op, setter), op, setter)
  {
    ApplyTree(s, op, setter);
    assert [op, op][1..] == [op];
    OneRun(Apply(s, op, setter), op, setter);
  }

  /**
   * The kernel looks a name up before it passes a mkdir on, but the lines of a compound file reach
   * the code directly: a batch that makes a directory twice leaves its name there twice.
   */
  lemma BatchMakesTwice(s: State, path: string, setter: Setter)
    requires Tree(s) && Neat(s) && s.ents[ROOT].schema.kind == Subdir && FreshMkdir(s, path)
    requires '\n' !in path && '\0' !in path
    ensures Compound.BufferOk(TwoLines(path)) && LegalRun(s, Compound.Commands(TwoLines(path)), setter)
    ensures !Unique(Run(s, Compound.Commands(TwoLines(path)), setter))
  {
    TwoLinesParse(path);
    MkdirAlwaysTwice(s, path);
    TwoRun(s, OpMkdir(path), setter);
  }

  // ---------------------------------------------------------------- a filesystem where it happens

  /** A root directory with one OBJECT directory in it. */
  function OneObject(name: string): Template {
    Node("/", Subdir, Node(name, Object, Nil, Nil), Nil)
  }

  lemma PathOf(name: string, c: string)
    requires Ordinary(name) && Ordinary(c)
    ensures var dir := ['/'] + name; var path := dir + ['/'] + c;
      BaseName(path) == c && DirName(path) == dir && Tokens(dir, '/') == [name]
  {
    var dir := ['/'] + name;
    var path := dir + ['/'] + c;
    assert path[|path| - 1] == c[|c| - 1] && path[|dir| + 1..] == c;
    OffsetAt(path, |dir| + 1);
    assert path[..|dir| + 1] == dir + ['/'];
    assert (dir + ['/'])[..|dir|] == dir && dir[|dir| - 1] == name[|name| - 1];
    assert dir == [] + ['/'] + name;
    TokensOfWord(name, '/');
    TokensJoin([], name, '/');
  }

  lemma OneObjectMounted(name: string)
    requires Ordinary(name)
    ensures var s := Initial(OneObject(name));
      (Neat(s) && s.ents[ROOT].kids == [1] && 1 in s.ents
       && s.ents[1] == NewEntry(Node(name, Object, Nil, Nil), ROOT, []) && Resolve(s, ROOT, [name]) == Some(1))
  {
    var s := Initial(OneObject(name));
    assert TidyForest(Node(name, Object, Nil, Nil));
    InitialNeat(OneObject(name));
    assert s.ents[ROOT].kids == [1];
    var t := Node(name, Object, Nil, Nil);
    assert FillChain(t, ROOT, 1) == FillOne(t, ROOT, 1) + FillChain(Nil, ROOT, 2);
    assert FillOne(t, ROOT, 1)[1] == NewEntry(t, ROOT, []);
    ResolveSingle(s, ROOT, name);
    assert FindName(s, [1], name) == Some(1);
  }

  lemma OneObjectFresh(name: string, c: string)
    requires Ordinary(name) && Ordinary(c) && name != c && '*' !in name
    ensures var s, path := Initial(OneObject(name)), ['/'] + name + ['/'] + c;
      Neat(s) && s.ents[ROOT].schema.kind == Subdir && FreshMkdir(s, path)
  {
    var s, path := Initial(OneObject(name)), ['/'] + name + ['/'] + c;
    OneObjectMounted(name);
    PathOf(name, c);
    SearchTokens(s, ['/'] + name);
    assert FindName(s, [1], c) == None;
    MkdirRefuses(s, path, 1);
    SearchBreakup(s, path, 1);
  }

  /** On such a mount, making any subdirectory twice succeeds twice, and its name is then there twice. */
  lemma MadeTwice(name: string, c: string)
    requires Ordinary(name) && Ordinary(c) && name != c && '*' !in name
    ensures var s, path := Initial(OneObject(name)), ['/'] + name + ['/'] + c;
      && Neat(s) && Mkdir(s, path).1 == Done
      && var t := Mkdir(s, path).0;
         Shape(t) && Unique(t) && Mkdir(t, path).1 == Done && Shape(Mkdir(t, path).0) && !Unique(Mkdir(t, path).0)
  {
    OneObjectFresh(name, c);
    MkdirAlwaysTwice(Initial(OneObject(name)), ['/'] + name + ['/'] + c);
  }

  lemma NotInPath(name: string, c: string, x: char)
    requires x !in name && x !in c && x != '/'
    ensures x !in ['/'] + name + ['/'] + c
  {
    Compound.NotInBoth(['/'], name, x);
    Compound.NotInBoth(['/'] + name, ['/'], x);
    Compound.NotInBoth(['/'] + name + ['/'], c, x);
  }

  lemma TwiceByBatch(name: string, c: string, setter: Setter)
    requires Ordinary(name) && Ordinary(c) && name != c && '*' !in name
    requires '\n' !in name && '\0' !in name && '\n' !in c && '\0' !in c
    ensures var s, path := Initial(OneObject(name)), ['/'] + name + ['/'] + c;
      && Tree(s) && Compound.BufferOk(TwoLines(path)) && LegalRun(s, Compound.Commands(TwoLines(path)), setter)
      && !Unique(Run(s, Compound.Commands(TwoLines(path)), setter))
  {
    var s, path := Initial(OneObject(name)), ['/'] + name + ['/'] + c;
    InitialTree(OneObject(name));
    OneObjectFresh(name, c);
    NotInPath(name, c, '\n');
    NotInPath(name, c, '\0');
    BatchMakesTwice(s, path, setter);
  }

  /** The OBJECT's own name, free inside it, is refused: the check finds the OBJECT itself in the root. */
  lemma OwnNameRefused(name: string)
    requires Ordinary(name) && '*' !in name
    ensures var s, path := Initial(OneObject(name)), ['/'] + name + ['/'] + name;
      Neat(s) && Mkdir(s, path).1 == Failed(EEXIST) && Search(s, ROOT, path) == None
  {
    var s, path := Initial(OneObject(name)), ['/'] + name + ['/'] + name;
    OneObjectMounted(name);
    PathOf(name, name);
    SearchTokens(s, ['/'] + name);
    MkdirRefuses(s, path, 1);
    SearchBreakup(s, path, 1);
  }

  /** For one: a mount with an empty OBJECT called switches, and a batch making /switches/s1 twice. */
  lemma TwoSwitches(setter: Setter)
    ensures var s, path := Initial(OneObject("switches")), ['/'] + "switches" + ['/'] + "s1";
      && Tree(s) && Compound.BufferOk(TwoLines(path)) && LegalRun(s, Compound.Commands(TwoLines(path)), setter)
      && !Unique(Run(s, Compound.Commands(TwoLines(path)), setter))
  {
    TwiceByBatch("switches", "s1", setter);
  }
}
