/** Operations that take each other back: rmdir after mkdir, and rename back. */
module Undoing {
  import opened Wrappers
  import opened Text
  import opened Schemas
  import opened Namespace
  import opened Grafting
  import opened Relinking
  import opened Lookup
  import opened Renaming
  import opened Creating
  import opened Operations
  import opened Neatness
  import opened Runs
  import opened Duplicates

  // ---------------------------------------------------------------- rmdir after mkdir

  lemma {:induction false} OldStays(s: State, p: nat, t: Template, name: string, hidden: bool, n: nat)
    requires Tree(s) && p in s.ents && n in s.ents && Tree(Graft(s, p, t, name, hidden))
    ensures var g := Graft(s, p, t, name, hidden); n in g.ents && !Under(g, n, s.nextId)
    decreases Level(s, n)
  {
    GraftEntry(s, p, t, name, hidden, n);
    if n != ROOT { OldStays(s, p, t, name, hidden, s.ents[n].par); }
  }

  lemma {:induction false} NewFalls(s: State, p: nat, t: Template, name: string, hidden: bool, n: nat)
    requires Tree(s) && p in s.ents && s.nextId <= n < s.nextId + SizeOne(t) && Tree(Graft(s, p, t, name, hidden))
    ensures var g := Graft(s, p, t, name, hidden); n in g.ents && Under(g, n, s.nextId)
    decreases n
  {
    var f := FillOne(t, p, s.nextId);
    FillOneForested(t, p, s.nextId);
    assert n in f;
    if n != s.nextId {
      var q := f[n].par;
      assert q in f && n in f[q].kids && Ascending(f, f[q].kids, q, q + 1, s.nextId + SizeOne(t));
      NewFalls(s, p, t, name, hidden, q);
    }
  }

  lemma CutGraftOld(s: State, p: nat, t: Template, name: string, hidden: bool, n: nat)
    requires Tree(s) && p in s.ents && n in s.ents && Tree(Graft(s, p, t, name, hidden))
    ensures var g := Graft(s, p, t, name, hidden);
      && s.nextId in g.ents && s.nextId != ROOT
      && n in Cut(g, s.nextId).ents && Cut(g, s.nextId).ents[n] == s.ents[n]
  {
    OldStays(s, p, t, name, hidden, n);
    GraftEntry(s, p, t, name, hidden, n);
    assert Without([s.nextId] + s.ents[p].kids, s.nextId) == s.ents[p].kids;
  }

  /** Cutting a new entry takes exactly the graft back. */
  lemma CutGraft(s: State, p: nat, t: Template, name: string, hidden: bool)
    requires Tree(s) && p in s.ents
    ensures var g := Graft(s, p, t, name, hidden);
      Tree(g) && s.nextId in g.ents && s.nextId != ROOT && Cut(g, s.nextId).ents == s.ents
  {
    var g := Graft(s, p, t, name, hidden);
    GraftTree(s, p, t, name, hidden);
    CutGraftOld(s, p, t, name, hidden, p);
    var c := Cut(g, s.nextId).ents;
    forall n | n in s.ents
      ensures n in c && c[n] == s.ents[n]
    {
      CutGraftOld(s, p, t, name, hidden, n);
    }
    forall n | n in c
      ensures n in s.ents
    {
      GraftDomain(s, p, t, name, hidden, n);
      if n !in s.ents { NewFalls(s, p, t, name, hidden, n); }
    }
  }

  lemma MadeEntry(s: State, d: nat, x: Template, c: string)
    requires Shape(s) && d in s.ents && x.kind == Subdir
    ensures var g := Graft(s, d, x, c, false);
      s.nextId in g.ents && !g.ents[s.nextId].hidden && g.ents[s.nextId].schema.kind == Subdir
  {
    GraftEntry(s, d, x, c, false, d);
  }

  /** A directory just made can be removed again, and then every entry is as before. */
  lemma MkdirRmdir(s: State, path: string)
    requires Tree(s) && Neat(s) && Mkdir(s, path).1 == Done && Search(s, ROOT, path) == None && '*' !in BaseName(path)
    ensures var t := Mkdir(s, path).0;
      Tree(t) && RmdirLegal(t, path) && Rmdir(t, path).1 == Done && Rmdir(t, path).0.ents == s.ents
  {
    var t, d, c := Mkdir(s, path).0, Search(s, ROOT, DirName(path)).value, BaseName(path);
    var x := MkdirTemplate(s.ents[d].schema, c);
    CheckedName(s, d, path);
    SearchBreakup(s, path, d);
    SameDir(s, t, path, d, x, false);
    CutGraft(s, d, x, c, false);
    GraftFind(s, d, x, c, false, d, c);
    GraftEntry(s, d, x, c, false, d);
    SearchBreakup(t, path, d);
    MadeEntry(s, d, x, c);
  }

  // ---------------------------------------------------------------- rename back

  /** s with e first among its siblings. */
  function Fronted(s: State, e: nat): State
    requires e in s.ents && s.ents[e].par in s.ents
  {
    var f := s.ents[e].par;
    s.(ents := s.ents[f := s.ents[f].(kids := [e] + Without(s.ents[f].kids, e))])
  }

  lemma MoveBackEntry(s: State, e: nat, p: nat, name: string, n: nat)
    requires Shape(s) && e in s.ents && e != ROOT && p in s.ents && p != e && s.ents[e].par != e && n in s.ents
    ensures var t, f, b := Move(s, e, p, name), s.ents[e].par, s.ents[e].name;
      && e in t.ents && t.ents[e].par in t.ents && f in t.ents
      && n in Move(t, e, f, b).ents && Move(t, e, f, b).ents[n] == Fronted(s, e).ents[n]
  {
    var t, f, b := Move(s, e, p, name), s.ents[e].par, s.ents[e].name;
    MoveShape(s, e, p, name);
    MoveEntry(s, e, p, name, e);
    MoveEntry(s, e, p, name, n);
    MoveEntry(t, e, f, b, n);
    var u := Unlink(s.ents, e)[p].kids;
    assert ([e] + u)[1..] == u;
  }

  /** Moving an entry away and back leaves it first among its siblings and changes nothing else. */
  lemma MoveBack(s: State, e: nat, p: nat, name: string)
    requires Tree(s) && e in s.ents && e != ROOT && p in s.ents && !Under(s, p, e)
    ensures var t, f, b := Move(s, e, p, name), s.ents[e].par, s.ents[e].name;
      e in t.ents && t.ents[e].par in t.ents && f in t.ents && Move(t, e, f, b) == Fronted(s, e)
  {
    assert p != e && s.ents[e].par != e;
    MoveBackEntry(s, e, p, name, e);
    var back := Move(Move(s, e, p, name), e, s.ents[e].par, s.ents[e].name);
    assert back.ents.Keys == s.ents.Keys;
    forall n | n in s.ents
      ensures n in back.ents && back.ents[n] == Fronted(s, e).ents[n]
    {
      MoveBackEntry(s, e, p, name, n);
    }
  }

  /** The order of siblings with distinct names does not matter to a search. */
  lemma FrontedFind(s: State, e: nat, ids: seq<nat>, c: string)
    requires forall i :: 0 <= i < |ids| ==> ids[i] in s.ents
    requires DistinctNames(s, ids) && e in ids
    ensures forall i :: 0 <= i < |([e] + Without(ids, e))| ==> ([e] + Without(ids, e))[i] in s.ents
    ensures FindName(s, [e] + Without(ids, e), c) == FindName(s, ids, c)
  {
    WithoutSubset(ids, e);
    var k :| 0 <= k < |ids| && ids[k] == e;
    var front := [e] + Without(ids, e);
    assert front[1..] == Without(ids, e);
    forall i | 0 <= i < |front|
      ensures front[i] in s.ents
    {
      if i > 0 {
        assert front[i] in Without(ids, e);
        var j :| 0 <= j < |ids| && ids[j] == front[i];
      }
    }
    FindOwn(s, ids, k);
    if s.ents[e].name != c { FindNameWithout(s, ids, e, c); }
  }

  lemma FrontedShape(s: State, e: nat)
    requires Shape(s) && e in s.ents && e != ROOT
    ensures Shape(Fronted(s, e))
  {
    var f, t := s.ents[e].par, Fronted(s, e);
    assert Chain(s.ents, s.ents[f].kids, f);
    WithoutMembers(s.ents[f].kids, e);
    NoDupCons(e, Without(s.ents[f].kids, e));
    forall n {:trigger t.ents[n].kids} | n in t.ents
      ensures Chain(t.ents, t.ents[n].kids, n)
    {
      assert Chain(s.ents, s.ents[n].kids, n);
      if n == f {
        forall i | 0 <= i < |t.ents[f].kids|
          ensures t.ents[f].kids[i] in s.ents[f].kids
        {
          if i > 0 { assert t.ents[f].kids[i] in Without(s.ents[f].kids, e); }
        }
      }
    }
  }

  lemma FrontedStep(s: State, e: nat, n: nat, c: string)
    requires Shape(s) && Unique(s) && e in s.ents && e != ROOT && n in s.ents
    ensures Shape(Fronted(s, e)) && Step(Fronted(s, e), n, c) == Step(s, n, c)
  {
    FrontedShape(s, e);
    var t, f := Fronted(s, e), s.ents[e].par;
    assert Chain(s.ents, s.ents[n].kids, n);
    assert DistinctNames(s, s.ents[n].kids);
    if n == f { FrontedFind(s, e, s.ents[f].kids, c); }
    FindNameSame(s, t, t.ents[n].kids, c);
  }

  lemma {:induction false} FrontedResolve(s: State, e: nat, n: nat, q: seq<string>)
    requires Shape(s) && Unique(s) && e in s.ents && e != ROOT && n in s.ents
    ensures Shape(Fronted(s, e)) && Resolve(Fronted(s, e), n, q) == Resolve(s, n, q)
    decreases |q|
  {
    FrontedShape(s, e);
    if q != [] {
      FrontedStep(s, e, n, q[0]);
      if Step(s, n, q[0]).Some? { FrontedResolve(s, e, Step(s, n, q[0]).value, q[1..]); }
    }
  }

  lemma NewFinds(s: State, oldpath: string, newpath: string, e: nat)
    requires CleanRename(s, oldpath, newpath) && Search(s, ROOT, oldpath) == Some(e)
    ensures Shape(Rename(s, oldpath, newpath).0) && Search(Rename(s, oldpath, newpath).0, ROOT, newpath) == Some(e)
  {
    var e', p, c, d, o := RenameParts(s, oldpath, newpath);
    RenameReroots(s, oldpath, newpath, []);
    assert Tokens(newpath, '/') + [] == Tokens(newpath, '/') && Tokens(oldpath, '/') + [] == Tokens(oldpath, '/');
    SearchTokens(Rename(s, oldpath, newpath).0, newpath);
    SearchTokens(s, oldpath);
  }

  /** What renaming back works with: the moved entry, its old directory and its old name. */
  lemma BackParts(s: State, oldpath: string, newpath: string) returns (e: nat, p: nat, c: string)
    requires CleanRename(s, oldpath, newpath)
    ensures Movable(s, e, p, c) && Search(s, ROOT, oldpath) == Some(e)
    ensures var t := Rename(s, oldpath, newpath).0;
      && t == Move(s, e, p, c) && Shape(t) && Search(t, ROOT, newpath) == Some(e)
      && Search(t, ROOT, DirName(oldpath)) == Some(s.ents[e].par) && BaseName(oldpath) == s.ents[e].name
  {
    var d, o;
    e, p, c, d, o := RenameParts(s, oldpath, newpath);
    NewFinds(s, oldpath, newpath, e);
    if Under(s, s.ents[e].par, e) { UnderDeeper(s, s.ents[e].par, e); }
    RenameKeepsDirectory(s, e, p, c, o, s.ents[e].par);
    var toks := Tokens(oldpath, '/');
    assert toks[..|toks| - 1] == o;
    SearchDir(Move(s, e, p, c), oldpath, toks);
    BreakupPath(oldpath, toks);
  }

  lemma RenameIs(t: State, oldpath: string, newpath: string, e: nat, f: nat, b: string)
    requires Shape(t) && Rename(t, newpath, oldpath).1 == Done && e in t.ents && f in t.ents
    requires Search(t, ROOT, newpath) == Some(e) && Search(t, ROOT, DirName(oldpath)) == Some(f)
    requires BaseName(oldpath) == b
    ensures t.ents[e].par in t.ents && Rename(t, newpath, oldpath).0 == Move(t, e, f, b)
  {
  }

  /**
   * Renaming back, where the duplicate check lets it through, restores every lookup: no entry differs
   * from before but for the order of the siblings.
   */
  lemma RenameBack(s: State, oldpath: string, newpath: string, n: nat, q: seq<string>)
    requires CleanRename(s, oldpath, newpath) && n in s.ents
    requires Shape(Rename(s, oldpath, newpath).0) && Rename(Rename(s, oldpath, newpath).0, newpath, oldpath).1 == Done
    ensures var u := Rename(Rename(s, oldpath, newpath).0, newpath, oldpath).0;
      && Shape(u) && u == Fronted(s, Search(s, ROOT, oldpath).value)
      && Resolve(u, n, q) == Resolve(s, n, q)
  {
    var e, p, c := BackParts(s, oldpath, newpath);
    MoveBack(s, e, p, c);
    RenameIs(Move(s, e, p, c), oldpath, newpath, e, s.ents[e].par, s.ents[e].name);
    FrontedResolve(s, e, n, q);
  }

  lemma RenameDoneIff(t: State, oldpath: string, newpath: string, e: nat, f: nat, b: string)
    requires Shape(t) && e in t.ents && f in t.ents && BaseName(oldpath) == b && Ordinary(b)
    requires Search(t, ROOT, newpath) == Some(e) && Search(t, ROOT, DirName(oldpath)) == Some(f)
    ensures Rename(t, newpath, oldpath).1 == Done <==>
      !t.ents[f].hidden && !t.ents[e].hidden && FindName(t, t.ents[ROOT].kids, b) == None
  {
    DuplicateCheck(t, f, b);
  }

  lemma HiddenKept(s: State, e: nat, p: nat, name: string, n: nat)
    requires Shape(s) && e in s.ents && e != ROOT && p in s.ents && p != e && n in s.ents
    ensures n in Move(s, e, p, name).ents && Move(s, e, p, name).ents[n].hidden == s.ents[n].hidden
  {
    MoveEntry(s, e, p, name, n);
  }

  /** It goes through exactly when the old directory is not hidden and the root then has no child of the old name. */
  lemma RenameBackIff(s: State, oldpath: string, newpath: string)
    requires CleanRename(s, oldpath, newpath)
    ensures var t, e := Rename(s, oldpath, newpath).0, Search(s, ROOT, oldpath).value;
      && Shape(t) && s.ents[e].par in s.ents
      && (Rename(t, newpath, oldpath).1 == Done <==>
            !s.ents[s.ents[e].par].hidden && FindName(t, t.ents[ROOT].kids, s.ents[e].name) == None)
  {
    var e, p, c := BackParts(s, oldpath, newpath);
    HiddenKept(s, e, p, c, e);
    HiddenKept(s, e, p, c, s.ents[e].par);
    RenameDoneIff(Rename(s, oldpath, newpath).0, oldpath, newpath, e, s.ents[e].par, s.ents[e].name);
  }
}
