/** What whole runs of operations keep. */
module Runs {
  import opened Wrappers
  import opened Text
  import opened Schemas
  import opened Globs
  import opened Namespace
  import opened Grafting
  import opened Relinking
  import opened Lookup
  import opened Renaming
  import opened Creating
  import opened Operations
  import opened Neatness

  ghost predicate LegalRun(s: State, ops: seq<Op>, setter: Setter)
    requires Tree(s)
    decreases |ops|
  {
    ops == [] ||
    (Legal(s, ops[0]) && (ApplyTree(s, ops[0], setter); LegalRun(Apply(s, ops[0], setter), ops[1..], setter)))
  }

  ghost function Run(s: State, ops: seq<Op>, setter: Setter): (t: State)
    requires Tree(s) && LegalRun(s, ops, setter)
    ensures Tree(t)
    decreases |ops|
  {
    if ops == [] then s
    else
      ApplyTree(s, ops[0], setter);
      Run(Apply(s, ops[0], setter), ops[1..], setter)
  }

  // ---------------------------------------------------------------- full paths

  lemma OnlySlashes(path: string)
    requires Tokens(path, '/') == []
    ensures TrimSlashes(path) == []
  {
    TokensTrimmed(path);
    var t := TrimSlashes(path);
    if t != [] { TokensCut(t); }
  }

  lemma NothingNamed(path: string)
    requires Tokens(path, '/') == []
    ensures BaseName(path) == "." || BaseName(path) == "/"
  {
    OnlySlashes(path);
  }

  lemma NamesSomething(path: string)
    requires Ordinary(BaseName(path))
    ensures Tokens(path, '/') != []
  {
    if Tokens(path, '/') == [] { NothingNamed(path); }
  }

  lemma SearchTokens(s: State, path: string)
    requires Shape(s) && Tokens(path, '/') != []
    ensures Search(s, ROOT, path) == Resolve(s, ROOT, Tokens(path, '/'))
  {
  }

  lemma ResolveSingle(s: State, n: nat, c: string)
    requires Shape(s) && n in s.ents
    ensures Resolve(s, n, [c]) == Step(s, n, c)
  {
  }

  /** Looking up a dirname resolves all components but the last. */
  lemma SearchDir(s: State, path: string, toks: seq<string>)
    requires Shape(s) && toks == Tokens(path, '/') && toks != []
    ensures Search(s, ROOT, DirName(path)) == Resolve(s, ROOT, toks[..|toks| - 1])
  {
    BreakupPath(path, toks);
    var dirs := toks[..|toks| - 1];
    if DirName(path) == "." {
      TokensOfWord(".", '/');
      ResolveSingle(s, ROOT, ".");
      SearchTokens(s, ".");
    } else if dirs != [] {
      SearchTokens(s, DirName(path));
    } else {
      if DirName(path)[0] != '/' { SpanPositive(DirName(path)); }
    }
  }

  /** The components of a path that ends in a proper name: those of its directory, and the name. */
  lemma LastComponent(path: string) returns (dirs: seq<string>)
    requires Ordinary(BaseName(path))
    ensures Tokens(path, '/') == dirs + [BaseName(path)]
    ensures Tokens(path, '/') != [] && dirs == Tokens(path, '/')[..|Tokens(path, '/')| - 1]
  {
    var toks := Tokens(path, '/');
    NamesSomething(path);
    BreakupPath(path, toks);
    dirs := toks[..|toks| - 1];
  }

  /** Looking up a path is looking up its last component in what its dirname finds. */
  lemma SearchBreakup(s: State, path: string, p: nat)
    requires Shape(s) && Search(s, ROOT, DirName(path)) == Some(p) && Ordinary(BaseName(path))
    ensures p in s.ents && Search(s, ROOT, path) == FindName(s, s.ents[p].kids, BaseName(path))
  {
    var dirs := LastComponent(path);
    var c := BaseName(path);
    SearchDir(s, path, Tokens(path, '/'));
    ResolveAppend(s, ROOT, dirs, [c]);
    ResolveSingle(s, p, c);
    SearchTokens(s, path);
  }

  /**
   * The duplicate checks of mkdir and rename look the new name up without a leading slash, so they
   * consult the root's children whatever the target directory is.
   */
  lemma DuplicateCheck(s: State, d: nat, name: string)
    requires Shape(s) && d in s.ents && Ordinary(name)
    ensures Search(s, d, name) == FindName(s, s.ents[ROOT].kids, name)
  {
    TokensOfWord(name, '/');
    ResolveSingle(s, ROOT, name);
  }

  /** A name that passes the check is one that lookups can ask for. */
  lemma CheckedName(s: State, d: nat, path: string)
    requires Shape(s) && d in s.ents && Search(s, d, BaseName(path)) == None
    ensures Ordinary(BaseName(path))
  {
    var name := BaseName(path);
    if Tokens(path, '/') == [] {
      NothingNamed(path);
    } else {
      BreakupPath(path, Tokens(path, '/'));
    }
    if name != "/" {
      TokensOfWord(name, '/');
      ResolveSingle(s, ROOT, name);
    }
  }

  // ---------------------------------------------------------------- distinct names, exactly

  lemma GraftDistinct(s: State, p: nat, t: Template, c: string, hidden: bool, n: nat)
    requires Shape(s) && Unique(s) && p in s.ents && TidyForest(t.children)
    requires FindName(s, s.ents[p].kids, c) == None && n in Graft(s, p, t, c, hidden).ents
    ensures Shape(Graft(s, p, t, c, hidden))
    ensures DistinctNames(Graft(s, p, t, c, hidden), Graft(s, p, t, c, hidden).ents[n].kids)
  {
    var g := Graft(s, p, t, c, hidden);
    GraftShape(s, p, t, c, hidden);
    GraftDomain(s, p, t, c, hidden, n);
    if n in s.ents {
      GraftEntry(s, p, t, c, hidden, n);
      GraftNames(s, p, t, c, hidden, n);
      DistinctKept(s, g, s.ents[n].kids, s.nextId);
    } else {
      GraftNewChain(s, p, t, c, hidden, n);
      NoShadowDistinct(g, g.ents[n].kids);
    }
  }

  /** A graft keeps sibling names distinct exactly when the name was not there. */
  lemma GraftUniqueIff(s: State, p: nat, t: Template, c: string, hidden: bool)
    requires Shape(s) && Unique(s) && p in s.ents && TidyForest(t.children)
    ensures Shape(Graft(s, p, t, c, hidden))
    ensures Unique(Graft(s, p, t, c, hidden)) <==> FindName(s, s.ents[p].kids, c) == None
  {
    var g := Graft(s, p, t, c, hidden);
    GraftShape(s, p, t, c, hidden);
    GraftEntry(s, p, t, c, hidden, p);
    GraftNames(s, p, t, c, hidden, p);
    var prev := s.ents[p].kids;
    if FindName(s, prev, c) == None {
      forall n {:trigger g.ents[n].kids} | n in g.ents
        ensures DistinctNames(g, g.ents[n].kids)
      {
        GraftDistinct(s, p, t, c, hidden, n);
      }
    } else {
      var x := FindName(s, prev, c).value;
      var k :| 0 <= k < |prev| && prev[k] == x;
      assert g.ents[p].kids[0] == s.nextId && g.ents[p].kids[k + 1] == x;
      assert !DistinctNames(g, g.ents[p].kids);
    }
  }

  /** A successful mkdir keeps sibling names distinct exactly when its path named nothing before. */
  lemma MkdirUniqueIff(s: State, path: string)
    requires Shape(s) && Unique(s) && Tidied(s.ents) && Mkdir(s, path).1 == Done
    ensures Shape(Mkdir(s, path).0)
    ensures Unique(Mkdir(s, path).0) <==> Search(s, ROOT, path) == None
  {
    var d := Search(s, ROOT, DirName(path)).value;
    CheckedName(s, d, path);
    SearchBreakup(s, path, d);
    var t := MkdirTemplate(s.ents[d].schema, BaseName(path));
    GraftUniqueIff(s, d, t, t.name, NewEntry(t, d, []).hidden);
  }

  /** A successful rename does exactly when its new path named nothing, or the moved entry itself. */
  lemma RenameUniqueIff(s: State, oldpath: string, newpath: string)
    requires Tree(s) && Unique(s) && RenameLegal(s, oldpath, newpath) && Rename(s, oldpath, newpath).1 == Done
    ensures Shape(Rename(s, oldpath, newpath).0)
    ensures Unique(Rename(s, oldpath, newpath).0)
       <==> Search(s, ROOT, newpath) == None || Search(s, ROOT, newpath) == Search(s, ROOT, oldpath)
  {
    var p, e := Search(s, ROOT, DirName(newpath)).value, Search(s, ROOT, oldpath).value;
    var name := BaseName(newpath);
    CheckedName(s, p, newpath);
    SearchBreakup(s, newpath, p);
    MoveUniqueIff(s, e, p, name);
    assert DistinctNames(s, s.ents[p].kids);
    assert Chain(s.ents, s.ents[p].kids, p);
    var r := FindName(s, s.ents[p].kids, name);
    if r == Some(e) {
      forall x | x in s.ents[p].kids && x != e && x in s.ents
        ensures s.ents[x].name != name
      {
        OthersDiffer(s, e, x);
      }
    }
  }

  // ---------------------------------------------------------------- mkdir and rename by path

  predicate OrdinaryWalk(q: seq<string>) {
    forall i :: 0 <= i < |q| ==> Ordinary(q[i])
  }

  /** A walk without ".." that ends in a directory does not notice a new child of it. */
  lemma {:induction false} GraftBehind(s: State, p: nat, t: Template, c: string, hidden: bool, n: nat, q: seq<string>)
    requires Tree(s) && p in s.ents && n in s.ents && Plain(q) && Resolve(s, n, q) == Some(p) && Ordinary(c)
    ensures Shape(Graft(s, p, t, c, hidden)) && n in Graft(s, p, t, c, hidden).ents
    ensures Resolve(Graft(s, p, t, c, hidden), n, q) == Some(p)
    decreases |q|
  {
    GraftNames(s, p, t, c, hidden, n);
    if q != [] {
      var m := Step(s, n, q[0]).value;
      PlainGoesDown(s, m, q[1..]);
      if n == p && q[0] == c {
        FindNameMember(s, p, c);
        UnderDeeper(s, p, m);
      }
      GraftFind(s, p, t, c, hidden, n, q[0]);
      GraftBehind(s, p, t, c, hidden, m, q[1..]);
    }
  }

  /** A path finds the entry just prepended under its last component. */
  lemma GraftFound(s: State, path: string, d: nat, x: Template, hidden: bool)
    requires Tree(s) && Plain(Tokens(path, '/')) && Ordinary(BaseName(path))
    requires Search(s, ROOT, DirName(path)) == Some(d) && d in s.ents
    ensures var t := Graft(s, d, x, BaseName(path), hidden);
      Shape(t) && Search(t, ROOT, path) == Some(s.nextId)
  {
    var t, c := Graft(s, d, x, BaseName(path), hidden), BaseName(path);
    var dirs := LastComponent(path);
    SearchDir(s, path, Tokens(path, '/'));
    GraftBehind(s, d, x, c, hidden, ROOT, dirs);
    SearchDir(t, path, Tokens(path, '/'));
    SearchBreakup(t, path, d);
    GraftFind(s, d, x, c, hidden, d, c);
  }

  /** After mkdir its path finds a new, unhidden-unless-starred SUBDIR made from the OBJECT's template. */
  lemma MkdirFound(s: State, path: string)
    requires Shape(s) && Mkdir(s, path).1 == Done && Plain(Tokens(path, '/'))
    ensures var t := Mkdir(s, path).0;
      && Shape(t) && s.nextId !in s.ents && s.nextId in t.ents
      && t.ents[s.nextId].name == BaseName(path) && t.ents[s.nextId].schema.kind == Subdir
      && t.ents[s.nextId].hidden == ('*' in BaseName(path))
      && t.ents[s.nextId].par in s.ents && s.ents[t.ents[s.nextId].par].schema.kind == Object
      && t.ents[s.nextId].schema.children == s.ents[t.ents[s.nextId].par].schema.children
      && t.ents[s.nextId].par == Search(s, ROOT, DirName(path)).value
      && (Tree(s) ==> Search(t, ROOT, path) == Some(s.nextId))
  {
    var d := Search(s, ROOT, DirName(path)).value;
    CheckedName(s, d, path);
    var x := MkdirTemplate(s.ents[d].schema, BaseName(path));
    GraftShape(s, d, x, x.name, NewEntry(x, d, []).hidden);
    GraftEntry(s, d, x, x.name, NewEntry(x, d, []).hidden, d);
    if Tree(s) { GraftFound(s, path, d, x, NewEntry(x, d, []).hidden); }
  }

  /** mkdir keeps every earlier lookup exactly when its path named nothing before. */
  lemma MkdirConservativeIff(s: State, path: string)
    requires Shape(s) && Mkdir(s, path).1 == Done
    ensures var t := Mkdir(s, path).0;
      Shape(t) && ((forall n, q :: n in s.ents && Resolve(s, n, q).Some? ==>
                       n in t.ents && Resolve(t, n, q) == Resolve(s, n, q))
                   <==> Search(s, ROOT, path) == None)
  {
    var d := Search(s, ROOT, DirName(path)).value;
    CheckedName(s, d, path);
    SearchBreakup(s, path, d);
    var x := MkdirTemplate(s.ents[d].schema, BaseName(path));
    CreationConservativeIff(s, d, x, x.name, NewEntry(x, d, []).hidden);
  }

  /** The directory and the name of a path that names nothing yet. */
  lemma NewParts(s: State, path: string, p: nat) returns (d: seq<string>)
    requires Shape(s) && Search(s, ROOT, DirName(path)) == Some(p) && p in s.ents
    requires Search(s, p, BaseName(path)) == None
    requires OrdinaryWalk(Tokens(path, '/')) && Search(s, ROOT, path) == None
    ensures Ordinary(BaseName(path)) && Free(s, p, BaseName(path))
    ensures Tokens(path, '/') == d + [BaseName(path)] && OrdinaryWalk(d) && Plain(d) && Resolve(s, ROOT, d) == Some(p)
  {
    CheckedName(s, p, path);
    SearchBreakup(s, path, p);
    d := LastComponent(path);
    assert OrdinaryWalk(d);
    SearchDir(s, path, Tokens(path, '/'));
  }

  /** The directory of a path that names an entry; its last component is the entry's name. */
  lemma OldParts(s: State, path: string, e: nat) returns (o: seq<string>)
    requires Shape(s) && Unique(s) && OrdinaryWalk(Tokens(path, '/'))
    requires e in s.ents && e != ROOT && Search(s, ROOT, path) == Some(e)
    ensures Tokens(path, '/') == o + [s.ents[e].name] && OrdinaryWalk(o) && Plain(o)
    ensures s.ents[e].par in s.ents && Resolve(s, ROOT, o) == Some(s.ents[e].par)
  {
    var toks := Tokens(path, '/');
    assert toks != [];
    o := toks[..|toks| - 1];
    assert toks == o + [toks[|toks| - 1]];
    SearchTokens(s, path);
    ResolveLast(s, o, toks[|toks| - 1], e);
  }

  /** A rename between canonical paths, its new path naming nothing yet. */
  ghost predicate CleanRename(s: State, oldpath: string, newpath: string) {
    && Tree(s) && Unique(s) && OrdinaryNames(s)
    && Rename(s, oldpath, newpath).1 == Done && RenameLegal(s, oldpath, newpath)
    && OrdinaryWalk(Tokens(oldpath, '/')) && OrdinaryWalk(Tokens(newpath, '/'))
    && Search(s, ROOT, newpath) == None
  }

  /** The entry, the two directories and the name such a rename works with. */
  lemma RenameParts(s: State, oldpath: string, newpath: string)
      returns (e: nat, p: nat, c: string, d: seq<string>, o: seq<string>)
    requires CleanRename(s, oldpath, newpath)
    ensures OrdinaryWalk(d) && OrdinaryWalk(o)
    ensures Movable(s, e, p, c) && Free(s, p, c) && Rename(s, oldpath, newpath).0 == Move(s, e, p, c)
    ensures Tokens(newpath, '/') == d + [c] && Plain(d) && Resolve(s, ROOT, d) == Some(p)
    ensures Tokens(oldpath, '/') == o + [s.ents[e].name] && Plain(o) && Resolve(s, ROOT, o) == Some(s.ents[e].par)
    ensures Search(s, ROOT, oldpath) == Some(e)
  {
    p, e, c := Search(s, ROOT, DirName(newpath)).value, Search(s, ROOT, oldpath).value, BaseName(newpath);
    d := NewParts(s, newpath, p);
    o := OldParts(s, oldpath, e);
  }

  /**
   * rename re-roots the entry: below the new path every ".."-free suffix finds what it found below
   * the old path, and the old path resolves no more.
   */
  lemma RenameReroots(s: State, oldpath: string, newpath: string, q: seq<string>)
    requires CleanRename(s, oldpath, newpath) && Plain(q)
    ensures var t := Rename(s, oldpath, newpath).0;
      && Shape(t)
      && Resolve(t, ROOT, Tokens(newpath, '/') + q) == Resolve(s, ROOT, Tokens(oldpath, '/') + q)
      && Resolve(t, ROOT, Tokens(oldpath, '/') + q) == None
  {
    var e, p, c, d, o := RenameParts(s, oldpath, newpath);
    RenameNewPath(s, e, p, c, d, q);
    RenameOldPath(s, e, p, c, o, q);
    SearchTokens(s, oldpath);
    ResolveAppend(s, ROOT, Tokens(oldpath, '/'), q);
  }

  /** A path that asks the directory found by d for c starts with d and c. */
  lemma SameDirectory(s: State, q: seq<string>, i: nat, p: nat, d: seq<string>, c: string)
    requires Tree(s) && Unique(s) && p in s.ents && OrdinaryWalk(q) && OrdinaryWalk(d) && i < |q|
    requires Resolve(s, ROOT, d) == Some(p)
    ensures q[i] == c && Resolve(s, ROOT, q[..i]) == Some(p) ==> d + [c] <= q
  {
    PathsAreEntries(s, p, q[..i]);
    PathsAreEntries(s, p, d);
  }

  lemma MoveOthers(s: State, e: nat, p: nat, c: string, d: seq<string>, o: seq<string>, q: seq<string>)
    requires Movable(s, e, p, c) && Unique(s) && OrdinaryWalk(d) && OrdinaryWalk(o) && OrdinaryWalk(q)
    requires Resolve(s, ROOT, d) == Some(p) && Resolve(s, ROOT, o) == Some(s.ents[e].par)
    requires !(d + [c] <= q) && !(o + [s.ents[e].name] <= q)
    ensures Shape(Move(s, e, p, c))
    ensures Resolve(Move(s, e, p, c), ROOT, q) == Resolve(s, ROOT, q)
  {
    var f, b := s.ents[e].par, s.ents[e].name;
    RenameCases(s, e, p, c, ROOT, q);
    forall i | 0 <= i < |q|
      ensures !(q[i] == c && Resolve(s, ROOT, q[..i]) == Some(p))
      ensures !(q[i] == b && Resolve(s, ROOT, q[..i]) == Some(f))
    {
      SameDirectory(s, q, i, p, d, c);
      SameDirectory(s, q, i, f, o, b);
    }
    RenameElsewhere(s, e, p, c, ROOT, q);
  }

  /** Every other path resolves as before: those that reach neither the old place nor ask for the new one. */
  lemma RenameOthers(s: State, oldpath: string, newpath: string, q: seq<string>)
    requires CleanRename(s, oldpath, newpath) && OrdinaryWalk(q)
    requires !(Tokens(oldpath, '/') <= q) && !(Tokens(newpath, '/') <= q)
    ensures Shape(Rename(s, oldpath, newpath).0)
    ensures Resolve(Rename(s, oldpath, newpath).0, ROOT, q) == Resolve(s, ROOT, q)
  {
    var e, p, c, d, o := RenameParts(s, oldpath, newpath);
    MoveOthers(s, e, p, c, d, o, q);
  }

  // ---------------------------------------------------------------- careful runs stay neat

  /** The scan for c in n hits a pattern, so that find-or-create makes an entry. */
  predicate Creates(s: State, n: nat, c: string)
    requires Shape(s) && n in s.ents
  {
    c != "." && c != ".." && Probe(s, s.ents[n].kids, c).Pattern?
  }

  /** Wherever find-or-create makes an entry, its name hides no sibling. */
  ghost predicate CarefulWalk(s: State, n: nat, q: seq<string>)
    requires Shape(s) && n in s.ents
    decreases |q|
  {
    q == [] || (
      MakeStepShape(s, n, q[0]);
      var (t, m) := MakeStep(s, n, q[0]);
      && (Creates(s, n, q[0]) ==> HidesNone(s, s.ents[n].kids, q[0]))
      && (m.Some? ==> CarefulWalk(t, m.value, q[1..])))
  }

  /** No new name, read as a pattern, takes a name that stands behind it. */
  ghost predicate Careful(s: State, op: Op)
    requires Shape(s)
  {
    match op
    case OpMkdir(path) => Mkdir(s, path).1.Done? ==>
      HidesNone(s, s.ents[Search(s, ROOT, DirName(path)).value].kids, BaseName(path))
    case OpCreate(path) => CarefulWalk(s, ROOT, Tokens(path, '/'))
    case OpSymlink(_, path) => CarefulWalk(s, ROOT, Tokens(path, '/'))
    case OpRename(oldpath, newpath) => Rename(s, oldpath, newpath).1.Done? ==>
      MovedHidesNone(s, Search(s, ROOT, oldpath).value, Search(s, ROOT, DirName(newpath)).value, BaseName(newpath))
    case _ => true
  }

  lemma MakeStepNeatIff(s: State, n: nat, c: string)
    requires Neat(s) && n in s.ents && c != [] && '/' !in c
    ensures Neat(MakeStep(s, n, c).0) <==> (Creates(s, n, c) ==> HidesNone(s, s.ents[n].kids, c))
    ensures Neat(MakeStep(s, n, c).0) ||
      (Shape(MakeStep(s, n, c).0) && n in MakeStep(s, n, c).0.ents
       && !NoShadowChain(MakeStep(s, n, c).0, MakeStep(s, n, c).0.ents[n].kids))
  {
    MakeStepShape(s, n, c);
    if Creates(s, n, c) {
      var x := Probe(s, s.ents[n].kids, c).id;
      assert NeatAt(s, n) && NeatAt(s, x);
      GraftNeatIff(s, n, s.ents[x].schema, c, false);
      GraftNeatOld(s, n, s.ents[x].schema, c, false, n);
    }
  }

  lemma NoShadowTail(s: State, t: State, x: nat, ids: seq<nat>)
    requires forall i :: 0 <= i < |ids| ==>
      ids[i] in s.ents && ids[i] in t.ents && s.ents[ids[i]].name == t.ents[ids[i]].name
    requires x in t.ents
    ensures NoShadowChain(t, ids) ==> NoShadowChain(s, ids)
    ensures NoShadowChain(t, [x] + ids) ==> NoShadowChain(s, ids)
  {
    var all := [x] + ids;
    if NoShadowChain(t, all) {
      forall i, j | 0 <= i < j < |ids|
        ensures !Takes(t.ents[ids[i]].name, t.ents[ids[j]].name)
      {
        assert all[i + 1] == ids[i] && all[j + 1] == ids[j];
      }
    }
  }

  /** An entry that hides another keeps hiding it whatever is created. */
  lemma GraftShadow(s: State, p: nat, t: Template, c: string, hidden: bool, k: nat)
    requires Shape(s) && p in s.ents && k in s.ents && !NoShadowChain(s, s.ents[k].kids)
    ensures var g := Graft(s, p, t, c, hidden);
      Shape(g) && k in g.ents && !NoShadowChain(g, g.ents[k].kids)
  {
    var g := Graft(s, p, t, c, hidden);
    GraftEntry(s, p, t, c, hidden, k);
    GraftNames(s, p, t, c, hidden, k);
    NoShadowTail(s, g, s.nextId, s.ents[k].kids);
  }

  lemma {:induction false} MakeWalkShadow(s: State, n: nat, q: seq<string>, k: nat)
    requires Shape(s) && n in s.ents && k in s.ents && !NoShadowChain(s, s.ents[k].kids)
    ensures var t := MakeWalk(s, n, q).0; k in t.ents && !NoShadowChain(t, t.ents[k].kids)
    decreases |q|
  {
    if q != [] {
      MakeStepShape(s, n, q[0]);
      var (t, m) := MakeStep(s, n, q[0]);
      if Creates(s, n, q[0]) {
        GraftShadow(s, n, s.ents[Probe(s, s.ents[n].kids, q[0]).id].schema, q[0], false, k);
      }
      if m.Some? { MakeWalkShadow(t, m.value, q[1..], k); }
    }
  }

  lemma ShadowNotNeat(s: State, k: nat)
    requires Shape(s) && k in s.ents && !NoShadowChain(s, s.ents[k].kids)
    ensures !Neat(s)
  {
    assert Neat(s) ==> NeatAt(s, k);
  }

  lemma {:induction false} MakeWalkNeatIff(s: State, n: nat, q: seq<string>)
    requires Neat(s) && n in s.ents
    requires forall i :: 0 <= i < |q| ==> q[i] != [] && '/' !in q[i]
    ensures Neat(MakeWalk(s, n, q).0) <==> CarefulWalk(s, n, q)
    decreases |q|
  {
    if q != [] {
      MakeStepShape(s, n, q[0]);
      MakeStepNeatIff(s, n, q[0]);
      var (t, m) := MakeStep(s, n, q[0]);
      if m.Some? {
        if Neat(t) {
          MakeWalkNeatIff(t, m.value, q[1..]);
        } else {
          MakeWalkShadow(t, m.value, q[1..], n);
          ShadowNotNeat(MakeWalk(s, n, q).0, n);
        }
      }
    }
  }

  /** On a neat filesystem find-or-create keeps everything that resolved before. */
  lemma {:induction false} MakeConservative(s: State, n: nat, q: seq<string>, k: nat, r: seq<string>)
    requires Neat(s) && n in s.ents && k in s.ents && CarefulWalk(s, n, q)
    requires forall i :: 0 <= i < |q| ==> q[i] != [] && '/' !in q[i]
    requires Resolve(s, k, r).Some?
    ensures var t := MakeWalk(s, n, q).0; k in t.ents && Resolve(t, k, r) == Resolve(s, k, r)
    decreases |q|
  {
    if q != [] {
      MakeStepShape(s, n, q[0]);
      MakeStepNeatIff(s, n, q[0]);
      var (t, m) := MakeStep(s, n, q[0]);
      if Creates(s, n, q[0]) {
        var x := Probe(s, s.ents[n].kids, q[0]).id;
        assert NeatAt(s, n);
        PatternMeansAbsent(s, s.ents[n].kids, q[0]);
        GraftKeepsLookup(s, n, s.ents[x].schema, q[0], false, k, r);
      }
      if m.Some? { MakeConservative(t, m.value, q[1..], k, r); }
    }
  }

  lemma MakePathNeatIff(s: State, path: string)
    requires Neat(s)
    ensures Neat(Make(s, ROOT, path).0) <==> CarefulWalk(s, ROOT, Tokens(path, '/'))
  {
    MakeWalkNeatIff(s, ROOT, Tokens(path, '/'));
  }

  lemma MkdirNeatIff(s: State, path: string)
    requires Neat(s)
    ensures Neat(Mkdir(s, path).0) <==> Careful(s, OpMkdir(path))
  {
    if Mkdir(s, path).1.Done? {
      var d := Search(s, ROOT, DirName(path)).value;
      CheckedName(s, d, path);
      assert NeatAt(s, d);
      var t := MkdirTemplate(s.ents[d].schema, BaseName(path));
      GraftNeatIff(s, d, t, t.name, NewEntry(t, d, []).hidden);
    }
  }

  lemma RenameNeatIff(s: State, oldpath: string, newpath: string)
    requires Tree(s) && Neat(s) && RenameLegal(s, oldpath, newpath)
    ensures Neat(Rename(s, oldpath, newpath).0) <==> Careful(s, OpRename(oldpath, newpath))
  {
    if Rename(s, oldpath, newpath).1.Done? {
      var p, e := Search(s, ROOT, DirName(newpath)).value, Search(s, ROOT, oldpath).value;
      CheckedName(s, p, newpath);
      MoveNeatIff(s, e, p, BaseName(newpath));
    }
  }

  lemma CreateNeatIff(s: State, path: string)
    requires Tree(s) && Neat(s)
    ensures Neat(Create(s, path).0) <==> CarefulWalk(s, ROOT, Tokens(path, '/'))
  {
    MakeTree(s, path);
    MakePathNeatIff(s, path);
    var (t, r) := Make(s, ROOT, path);
    if r.Some? { SetNeatIff(t, r.value, t.ents[r.value].(hidden := false)); }
  }

  lemma SymlinkNeatIff(s: State, target: string, path: string)
    requires Tree(s) && Neat(s)
    ensures Neat(Symlink(s, target, path).0) <==> CarefulWalk(s, ROOT, Tokens(path, '/'))
  {
    MakeTree(s, path);
    MakePathNeatIff(s, path);
    var (t, r) := Make(s, ROOT, path);
    if r.Some? { SetNeatIff(t, r.value, t.ents[r.value].(hidden := false, value := Target(target))); }
  }

  /** An operation leaves no name hidden by a pattern exactly when it is careful. */
  lemma ApplyNeatIff(s: State, op: Op, setter: Setter)
    requires Tree(s) && Neat(s) && Legal(s, op)
    ensures Neat(Apply(s, op, setter)) <==> Careful(s, op)
  {
    match op
    case OpMkdir(path) => MkdirNeatIff(s, path);
    case OpRmdir(path) => if Rmdir(s, path).1.Done? { CutNeat(s, Search(s, ROOT, path).value); }
    case OpCreate(path) => CreateNeatIff(s, path);
    case OpSymlink(target, path) => SymlinkNeatIff(s, target, path);
    case OpUnlink(path) =>
      var r := Search(s, ROOT, path);
      if r.Some? { SetNeat(s, r.value, s.ents[r.value].(hidden := true, value := Empty)); }
    case OpRename(o, n) => RenameNeatIff(s, o, n);
    case OpWrite(path, data) =>
      var r := Search(s, ROOT, path);
      if r.Some? {
        var e := s.ents[r.value];
        SetNeat(s, r.value, e.(value := setter(e.schema.kind, e.value, data)));
      }
  }

  ghost predicate CarefulRun(s: State, ops: seq<Op>, setter: Setter)
    requires Tree(s) && LegalRun(s, ops, setter)
    decreases |ops|
  {
    ops == [] || (Careful(s, ops[0]) &&
      (ApplyTree(s, ops[0], setter); CarefulRun(Apply(s, ops[0], setter), ops[1..], setter)))
  }

  /** All states of the run are neat. */
  ghost predicate NeatRun(s: State, ops: seq<Op>, setter: Setter)
    requires Tree(s) && LegalRun(s, ops, setter)
    decreases |ops|
  {
    Neat(s) && (ops == [] ||
      (ApplyTree(s, ops[0], setter); NeatRun(Apply(s, ops[0], setter), ops[1..], setter)))
  }

  /** The states of a run are neat throughout exactly when every operation of it is careful. */
  lemma {:induction false} RunNeatIff(s: State, ops: seq<Op>, setter: Setter)
    requires Tree(s) && Neat(s) && LegalRun(s, ops, setter)
    ensures NeatRun(s, ops, setter) <==> CarefulRun(s, ops, setter)
    ensures CarefulRun(s, ops, setter) ==> Neat(Run(s, ops, setter))
    decreases |ops|
  {
    if ops != [] {
      ApplyTree(s, ops[0], setter);
      ApplyNeatIff(s, ops[0], setter);
      var t := Apply(s, ops[0], setter);
      if Neat(t) { RunNeatIff(t, ops[1..], setter); }
    }
  }

  // ---------------------------------------------------------------- what a caller can look at

  /** New names have no special character, and paths to be made or renamed to name nothing yet. */
  predicate PlainNames(s: State, op: Op)
    requires Shape(s)
  {
    match op
    case OpMkdir(path) => WithoutSpecial(BaseName(path)) && Search(s, ROOT, path) == None
    case OpCreate(path) => WildcardFree(Tokens(path, '/'))
    case OpSymlink(_, path) => WildcardFree(Tokens(path, '/'))
    case OpRename(_, path) => WithoutSpecial(BaseName(path)) && Search(s, ROOT, path) == None
    case _ => true
  }

  lemma {:induction false} WildcardFreeWalk(s: State, n: nat, q: seq<string>)
    requires Neat(s) && n in s.ents && WildcardFree(q)
    requires forall i :: 0 <= i < |q| ==> q[i] != [] && '/' !in q[i]
    ensures CarefulWalk(s, n, q)
    decreases |q|
  {
    if q != [] {
      MakeStepShape(s, n, q[0]);
      if Creates(s, n, q[0]) {
        assert NeatAt(s, n);
        PatternMeansAbsent(s, s.ents[n].kids, q[0]);
        LiteralHidesNone(s, s.ents[n].kids, q[0]);
      }
      MakeStepNeatIff(s, n, q[0]);
      var (t, m) := MakeStep(s, n, q[0]);
      if m.Some? { WildcardFreeWalk(t, m.value, q[1..]); }
    }
  }

  lemma PlainMkdir(s: State, path: string)
    requires Neat(s) && PlainNames(s, OpMkdir(path))
    ensures Careful(s, OpMkdir(path))
  {
    if Mkdir(s, path).1.Done? {
      var d := Search(s, ROOT, DirName(path)).value;
      CheckedName(s, d, path);
      SearchBreakup(s, path, d);
      LiteralHidesNone(s, s.ents[d].kids, BaseName(path));
    }
  }

  lemma PlainRename(s: State, oldpath: string, newpath: string)
    requires Neat(s) && PlainNames(s, OpRename(oldpath, newpath))
    ensures Careful(s, OpRename(oldpath, newpath))
  {
    if Rename(s, oldpath, newpath).1.Done? {
      var p, name := Search(s, ROOT, DirName(newpath)).value, BaseName(newpath);
      CheckedName(s, p, newpath);
      SearchBreakup(s, newpath, p);
      forall x | x in s.ents[p].kids && x in s.ents
        ensures !Takes(name, s.ents[x].name)
      {
        Literal(name, s.ents[x].name);
      }
    }
  }

  /** Names without special characters, new where they must be, are careful. */
  lemma PlainCareful(s: State, op: Op)
    requires Neat(s) && PlainNames(s, op)
    ensures Careful(s, op)
  {
    match op
    case OpMkdir(path) => PlainMkdir(s, path);
    case OpCreate(path) => WildcardFreeWalk(s, ROOT, Tokens(path, '/'));
    case OpSymlink(_, path) => WildcardFreeWalk(s, ROOT, Tokens(path, '/'));
    case OpRename(oldpath, newpath) => PlainRename(s, oldpath, newpath);
    case _ =>
  }

  /**
   * From a tidy schema, every careful run leaves sibling names distinct, and a path of ordinary names
   * finds an entry exactly when it spells the names on the way to it.
   */
  lemma MountedRunNames(t: Template, ops: seq<Op>, setter: Setter, n: nat, q: seq<string>)
    requires TidyForest(t.children) && Tree(Initial(t))
    requires LegalRun(Initial(t), ops, setter) && CarefulRun(Initial(t), ops, setter)
    requires n in Run(Initial(t), ops, setter).ents
    requires forall i :: 0 <= i < |q| ==> Ordinary(q[i])
    ensures var s := Run(Initial(t), ops, setter);
      Unique(s) && (Resolve(s, ROOT, q) == Some(n) <==> q == PathTo(s, n)) && Resolve(s, ROOT, PathTo(s, n)) == Some(n)
  {
    InitialNeat(t);
    RunNeatIff(Initial(t), ops, setter);
    var s := Run(Initial(t), ops, setter);
    NeatNames(s);
    PathsAreEntries(s, n, q);
    OwnPath(s, n);
  }
}
