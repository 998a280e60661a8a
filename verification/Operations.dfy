/** The FUSE operations of schemafs.c on the abstract state, and runs of them. */
module Operations {
  import opened Wrappers
  import opened Text
  import opened Schemas
  import opened Namespace
  import opened Grafting
  import opened Relinking

  datatype Errno = ENOENT | EPERM | EEXIST | ENOTDIR | EIO

  /** What an operation returns: 0, or a negated errno. */
  datatype Outcome = Done | Failed(errno: Errno)

  // ---------------------------------------------------------------- find or create

  lemma MakeStepShape(s: State, n: nat, c: string)
    requires Shape(s) && n in s.ents
    ensures var (t, m) := MakeStep(s, n, c);
      Shape(t) && (forall x {:trigger x in t.ents} :: x in s.ents ==> x in t.ents) && (m.Some? ==> m.value in t.ents)
  {
    match Probe(s, s.ents[n].kids, c)
    case Pattern(x) =>
      GraftShape(s, n, s.ents[x].schema, c, false);
    case Found(_) =>
    case Miss =>
  }

  /** The loop of schemafs_fnmatch. Entries made for earlier components stay even when a later one fails. */
  function MakeWalk(s: State, n: nat, q: seq<string>): (r: (State, Option<nat>))
    requires Shape(s) && n in s.ents
    ensures Shape(r.0) && (r.1.Some? ==> r.1.value in r.0.ents)
    decreases |q|
  {
    if q == [] then (s, Some(n))
    else
      MakeStepShape(s, n, q[0]);
      var (t, m) := MakeStep(s, n, q[0]);
      if m.None? then (t, None) else MakeWalk(t, m.value, q[1..])
  }

  /** The walk along the rest of the components is one step and the walk from there. */
  lemma MakeWalkOnward(s: State, n: nat, q: seq<string>, i: nat) returns (m: Option<nat>)
    requires Shape(s) && n in s.ents && i < |q|
    ensures m == MakeStep(s, n, q[i]).1 && Shape(MakeStep(s, n, q[i]).0)
    ensures m.Some? ==> m.value in MakeStep(s, n, q[i]).0.ents
    ensures MakeWalk(s, n, q[i..]) ==
      if m.None? then (MakeStep(s, n, q[i]).0, None) else MakeWalk(MakeStep(s, n, q[i]).0, m.value, q[i + 1..])
  {
    assert q[i..][0] == q[i] && q[i..][1..] == q[i + 1..];
    m := MakeStep(s, n, q[i]).1;
    MakeStepShape(s, n, q[i]);
  }

  /** schemafs_fnmatch with create=1; the start is chosen as in schemafs_search. */
  function Make(s: State, start: nat, path: string): (r: (State, Option<nat>))
    requires Shape(s) && start in s.ents
    ensures Shape(r.0) && (r.1.Some? ==> r.1.value in r.0.ents)
  {
    var toks := Tokens(path, '/');
    if toks == [] && (path == [] || path[0] != '/') then (s, None)
    else MakeWalk(s, if path[0] != '/' then ROOT else start, toks)
  }

  // ---------------------------------------------------------------- the operations

  /** The node mkdir puts into an OBJECT: a SUBDIR of the new name with the OBJECT's children. */
  function MkdirTemplate(o: Template, name: string): Template {
    Node(name, Subdir, o.children, o.next)
  }

  function Mkdir(s: State, path: string): (State, Outcome)
    requires Shape(s)
  {
    match Search(s, ROOT, DirName(path))
    case None => (s, Failed(ENOENT))
    case Some(d) =>
      if s.ents[d].hidden then (s, Failed(ENOENT))
      else if s.ents[d].schema.kind != Object then (s, Failed(EPERM))
      else if Search(s, d, BaseName(path)).Some? then (s, Failed(EEXIST))
      else
        var t := MkdirTemplate(s.ents[d].schema, BaseName(path));
        (Graft(s, d, t, t.name, NewEntry(t, d, []).hidden), Done)
  }

  /**
   * rmdir follows the parent pointer of its target, which the root does not have. The kernel never
   * passes a removal of the root on; a line of a compound file can.
   */
  predicate RmdirLegal(s: State, path: string)
    requires Shape(s)
  {
    Search(s, ROOT, path) == Some(ROOT) ==> s.ents[ROOT].hidden || s.ents[ROOT].schema.kind != Subdir
  }

  ghost function Rmdir(s: State, path: string): (State, Outcome)
    requires Tree(s) && RmdirLegal(s, path)
  {
    match Search(s, ROOT, path)
    case None => (s, Failed(ENOENT))
    case Some(e) =>
      if s.ents[e].hidden then (s, Failed(ENOENT))
      else if s.ents[e].schema.kind != Subdir then (s, Failed(ENOTDIR))
      else (Cut(s, e), Done)
  }

  function Create(s: State, path: string): (State, Outcome)
    requires Shape(s)
  {
    var (t, r) := Make(s, ROOT, path);
    match r
    case None => (t, Failed(ENOENT))
    case Some(n) =>
      if t.ents[n].schema.kind == Link || IsDir(t.ents[n].schema.kind) then (t, Failed(EPERM))
      else (t.(ents := t.ents[n := t.ents[n].(hidden := false)]), Done)
  }

  function Symlink(s: State, target: string, path: string): (State, Outcome)
    requires Shape(s)
  {
    var (t, r) := Make(s, ROOT, path);
    match r
    case None => (t, Failed(ENOENT))
    case Some(n) =>
      if t.ents[n].schema.kind != Link then (t, Failed(EPERM))
      else (t.(ents := t.ents[n := t.ents[n].(hidden := false, value := Target(target))]), Done)
  }

  function Unlinked(s: State, path: string): (State, Outcome)
    requires Shape(s)
  {
    match Search(s, ROOT, path)
    case None => (s, Failed(ENOENT))
    case Some(n) =>
      if s.ents[n].hidden then (s, Failed(ENOENT))
      else if s.ents[n].schema.kind != Link then (s, Failed(EPERM))
      else (s.(ents := s.ents[n := s.ents[n].(hidden := true, value := Empty)]), Done)
  }

  function Rename(s: State, oldpath: string, newpath: string): (State, Outcome)
    requires Shape(s)
  {
    match Search(s, ROOT, DirName(newpath))
    case None => (s, Failed(ENOTDIR))
    case Some(p) =>
      if s.ents[p].hidden then (s, Failed(ENOTDIR))
      else if Search(s, p, BaseName(newpath)).Some? then (s, Failed(EEXIST))
      else match Search(s, ROOT, oldpath)
        case None => (s, Failed(ENOENT))
        case Some(e) =>
          if s.ents[e].hidden then (s, Failed(ENOENT))
          else (Move(s, e, p, BaseName(newpath)), Done)
  }

  /**
   * What rename relies on the kernel to refuse: moving the root, moving a directory into its own
   * subtree, and a target parent that is not a directory.
   */
  ghost predicate RenameLegal(s: State, oldpath: string, newpath: string)
    requires Tree(s)
  {
    Rename(s, oldpath, newpath).1.Done? ==>
      var e, p := Search(s, ROOT, oldpath).value, Search(s, ROOT, DirName(newpath)).value;
      e != ROOT && !Under(s, p, e) && IsDir(s.ents[p].schema.kind)
  }

  /** ent->set, as types.c fills it in by type; links and directories have none. */
  type Setter = (Kind, Value, string) -> Value
  predicate HasSetter(k: Kind) { !IsDir(k) && k != Link }

  /** The `write` command of a compound file. */
  function WriteAt(s: State, path: string, data: string, setter: Setter): State
    requires Shape(s)
  {
    match Search(s, ROOT, path)
    case None => s
    case Some(n) =>
      var e := s.ents[n];
      if e.hidden || !HasSetter(e.schema.kind) then s
      else s.(ents := s.ents[n := e.(value := setter(e.schema.kind, e.value, data))])
  }

  // ---------------------------------------------------------------- runs

  datatype Op =
    | OpMkdir(path: string)
    | OpRmdir(path: string)
    | OpCreate(path: string)
    | OpSymlink(target: string, path: string)
    | OpUnlink(path: string)
    | OpRename(oldpath: string, newpath: string)
    | OpWrite(path: string, data: string)

  ghost predicate Legal(s: State, op: Op)
    requires Tree(s)
  {
    match op
    case OpRmdir(path) => RmdirLegal(s, path)
    case OpRename(o, n) => RenameLegal(s, o, n)
    case _ => true
  }

  ghost function Apply(s: State, op: Op, setter: Setter): State
    requires Tree(s) && Legal(s, op)
  {
    match op
    case OpMkdir(path) => Mkdir(s, path).0
    case OpRmdir(path) => Rmdir(s, path).0
    case OpCreate(path) => Create(s, path).0
    case OpSymlink(target, path) => Symlink(s, target, path).0
    case OpUnlink(path) => Unlinked(s, path).0
    case OpRename(o, n) => Rename(s, o, n).0
    case OpWrite(path, data) => WriteAt(s, path, data, setter)
  }

  lemma MakeStepTree(s: State, n: nat, c: string)
    requires Tree(s) && n in s.ents
    ensures Tree(MakeStep(s, n, c).0)
  {
    match Probe(s, s.ents[n].kids, c)
    case Pattern(x) =>
      GraftTree(s, n, s.ents[x].schema, c, false);
    case Found(_) =>
    case Miss =>
  }

  lemma {:induction false} MakeWalkTree(s: State, n: nat, q: seq<string>)
    requires Tree(s) && n in s.ents
    ensures Tree(MakeWalk(s, n, q).0)
    decreases |q|
  {
    if q != [] {
      MakeStepShape(s, n, q[0]);
      var (t, m) := MakeStep(s, n, q[0]);
      MakeStepTree(s, n, q[0]);
      if m.Some? { MakeWalkTree(t, m.value, q[1..]); }
    }
  }

  /** Changing an entry's attributes in place keeps the tree. */
  lemma SetTree(s: State, n: nat, e: Entry)
    requires Tree(s) && n in s.ents && e.par == s.ents[n].par && e.kids == s.ents[n].kids
    ensures Tree(s.(ents := s.ents[n := e]))
  {
    var t := s.(ents := s.ents[n := e]);
    forall x {:trigger t.ents[x].kids} | x in t.ents
      ensures Chain(t.ents, t.ents[x].kids, x)
    {
      assert Chain(s.ents, s.ents[x].kids, x);
    }
    var (lv, b) := LevelsOf(s);
    assert Leveled(t, lv, b);
  }

  lemma MakeTree(s: State, path: string)
    requires Tree(s)
    ensures Tree(Make(s, ROOT, path).0)
  {
    MakeWalkTree(s, ROOT, Tokens(path, '/'));
  }

  lemma MkdirTree(s: State, path: string)
    requires Tree(s)
    ensures Tree(Mkdir(s, path).0)
  {
    var (t, r) := Mkdir(s, path);
    if r.Done? {
      var d := Search(s, ROOT, DirName(path)).value;
      var x := MkdirTemplate(s.ents[d].schema, BaseName(path));
      GraftTree(s, d, x, x.name, NewEntry(x, d, []).hidden);
    }
  }

  lemma CreateTree(s: State, path: string)
    requires Tree(s)
    ensures Tree(Create(s, path).0)
  {
    MakeTree(s, path);
    var (t, r) := Make(s, ROOT, path);
    if r.Some? { SetTree(t, r.value, t.ents[r.value].(hidden := false)); }
  }

  lemma SymlinkTree(s: State, target: string, path: string)
    requires Tree(s)
    ensures Tree(Symlink(s, target, path).0)
  {
    MakeTree(s, path);
    var (t, r) := Make(s, ROOT, path);
    if r.Some? { SetTree(t, r.value, t.ents[r.value].(hidden := false, value := Target(target))); }
  }

  lemma UnlinkedTree(s: State, path: string)
    requires Tree(s)
    ensures Tree(Unlinked(s, path).0)
  {
    var r := Search(s, ROOT, path);
    if r.Some? { SetTree(s, r.value, s.ents[r.value].(hidden := true, value := Empty)); }
  }

  lemma WriteTree(s: State, path: string, data: string, setter: Setter)
    requires Tree(s)
    ensures Tree(WriteAt(s, path, data, setter))
  {
    var r := Search(s, ROOT, path);
    if r.Some? {
      var e := s.ents[r.value];
      SetTree(s, r.value, e.(value := setter(e.schema.kind, e.value, data)));
    }
  }

  /** Every legal operation keeps the tree a tree. */
  lemma ApplyTree(s: State, op: Op, setter: Setter)
    requires Tree(s) && Legal(s, op)
    ensures Tree(Apply(s, op, setter))
  {
    match op
    case OpMkdir(path) => MkdirTree(s, path);
    case OpRmdir(path) =>
      if Rmdir(s, path).1.Done? { CutTree(s, Search(s, ROOT, path).value); }
    case OpCreate(path) => CreateTree(s, path);
    case OpSymlink(target, path) => SymlinkTree(s, target, path);
    case OpUnlink(path) => UnlinkedTree(s, path);
    case OpRename(o, n) =>
      if Rename(s, o, n).1.Done? {
        MoveTree(s, Search(s, ROOT, o).value, Search(s, ROOT, DirName(n)).value, BaseName(n));
      }
    case OpWrite(path, data) => WriteTree(s, path, data, setter);
  }
}
