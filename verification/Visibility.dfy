/** Sibling names as a user sees them: hidden entries, which getattr and readdir leave out, do not count. */
module Visibility {
  import opened Wrappers
  import opened Text
  import opened Schemas
  import opened Namespace
  import opened Relinking
  import opened Creating
  import opened Operations
  import opened Neatness
  import opened Runs

  /** x is a child of n that shows the name c. */
  predicate Shows(s: State, n: nat, x: nat, c: string)
    requires n in s.ents
  {
    x in s.ents[n].kids && x in s.ents && !s.ents[x].hidden && s.ents[x].name == c
  }

  ghost predicate VisibleAt(s: State, n: nat)
    requires n in s.ents
  {
    forall c, x, y {:trigger Shows(s, n, x, c), Shows(s, n, y, c)} ::
      Shows(s, n, x, c) && Shows(s, n, y, c) ==> x == y
  }

  /** No two visible siblings have one name. */
  ghost predicate VisibleUnique(s: State) {
    forall n {:trigger VisibleAt(s, n)} :: n in s.ents ==> VisibleAt(s, n)
  }

  lemma DistinctVisible(s: State, n: nat)
    requires n in s.ents && (forall i :: 0 <= i < |s.ents[n].kids| ==> s.ents[n].kids[i] in s.ents)
    requires DistinctNames(s, s.ents[n].kids)
    ensures VisibleAt(s, n)
  {
    var ids := s.ents[n].kids;
    forall c, x, y | Shows(s, n, x, c) && Shows(s, n, y, c)
      ensures x == y
    {
      var i :| 0 <= i < |ids| && ids[i] == x;
      var j :| 0 <= j < |ids| && ids[j] == y;
      assert !(i < j) && !(j < i);
    }
  }

  lemma UniqueVisible(s: State)
    requires Shape(s) && Unique(s)
    ensures VisibleUnique(s)
  {
    forall n | n in s.ents
      ensures VisibleAt(s, n)
    {
      assert Chain(s.ents, s.ents[n].kids, n) && DistinctNames(s, s.ents[n].kids);
      DistinctVisible(s, n);
    }
  }

  // ---------------------------------------------------------------- mkdir

  lemma GraftShows(s: State, p: nat, t: Template, c: string, hidden: bool, n: nat, x: nat, d: string)
    requires Shape(s) && p in s.ents && n in s.ents
    ensures var g := Graft(s, p, t, c, hidden);
      && n in g.ents
      && (Shows(g, n, x, d) <==> Shows(s, n, x, d) || (n == p && x == s.nextId && !hidden && d == c))
  {
    GraftEntry(s, p, t, c, hidden, n);
    assert Chain(s.ents, s.ents[n].kids, n);
    if x in s.ents {
      GraftEntry(s, p, t, c, hidden, x);
    } else {
      GraftTop(s, p, t, c, hidden);
    }
  }

  lemma GraftVisibleAt(s: State, p: nat, t: Template, c: string, hidden: bool, n: nat)
    requires Shape(s) && VisibleUnique(s) && p in s.ents && TidyForest(t.children)
    requires n in Graft(s, p, t, c, hidden).ents
    ensures VisibleAt(Graft(s, p, t, c, hidden), n) <==> n != p || hidden || forall x :: !Shows(s, p, x, c)
  {
    var g := Graft(s, p, t, c, hidden);
    GraftDomain(s, p, t, c, hidden, n);
    if n in s.ents {
      assert VisibleAt(s, n);
      forall x, d
        ensures Shows(g, n, x, d) <==> Shows(s, n, x, d) || (n == p && x == s.nextId && !hidden && d == c)
      {
        GraftShows(s, p, t, c, hidden, n, x, d);
      }
      if n == p && !hidden && exists x :: Shows(s, p, x, c) {
        var x :| Shows(s, p, x, c);
        assert Shows(g, p, x, c) && Shows(g, p, s.nextId, c);
      }
    } else {
      GraftNewChain(s, p, t, c, hidden, n);
      NoShadowDistinct(g, g.ents[n].kids);
      DistinctVisible(g, n);
    }
  }

  lemma GraftVisibleIff(s: State, p: nat, t: Template, c: string, hidden: bool)
    requires Shape(s) && VisibleUnique(s) && p in s.ents && TidyForest(t.children)
    ensures VisibleUnique(Graft(s, p, t, c, hidden)) <==> hidden || forall x :: !Shows(s, p, x, c)
  {
    var g := Graft(s, p, t, c, hidden);
    GraftEntry(s, p, t, c, hidden, p);
    GraftVisibleAt(s, p, t, c, hidden, p);
    forall n | n in g.ents && n != p
      ensures VisibleAt(g, n)
    {
      GraftVisibleAt(s, p, t, c, hidden, n);
    }
  }

  /** A successful mkdir keeps visible names distinct exactly when its name has a star or no visible child has it. */
  lemma MkdirVisibleIff(s: State, path: string)
    requires Shape(s) && VisibleUnique(s) && Tidied(s.ents) && Mkdir(s, path).1 == Done
    ensures VisibleUnique(Mkdir(s, path).0)
       <==> '*' in BaseName(path) || forall x :: !Shows(s, Search(s, ROOT, DirName(path)).value, x, BaseName(path))
  {
    var d := Search(s, ROOT, DirName(path)).value;
    var t := MkdirTemplate(s.ents[d].schema, BaseName(path));
    GraftVisibleIff(s, d, t, t.name, NewEntry(t, d, []).hidden);
  }

  /** What the kernel's lookup reports as absent: nothing, or a hidden entry. */
  predicate LooksAbsent(s: State, path: string)
    requires Shape(s)
  {
    match Search(s, ROOT, path)
    case None => true
    case Some(x) => s.ents[x].hidden
  }

  /** Where names are distinct, the lookup finds the child that shows a name. */
  lemma OnlyOneShows(s: State, d: nat, x: nat, c: string)
    requires Shape(s) && Unique(s) && d in s.ents && Shows(s, d, x, c)
    ensures FindName(s, s.ents[d].kids, c) == Some(x)
  {
    var ids := s.ents[d].kids;
    assert DistinctNames(s, ids);
    var i :| 0 <= i < |ids| && ids[i] == x;
    var r := FindName(s, ids, c);
    if r.Some? {
      var j :| 0 <= j < |ids| && ids[j] == r.value;
      assert !(i < j) && !(j < i);
    }
  }

  /**
   * While names are distinct, a mkdir of a path that looks absent keeps the visible ones distinct; all of
   * them stay distinct only where nothing hidden had the name.
   */
  lemma MkdirLooksAbsent(s: State, path: string)
    requires Shape(s) && Unique(s) && Tidied(s.ents) && Mkdir(s, path).1 == Done && LooksAbsent(s, path)
    ensures VisibleUnique(Mkdir(s, path).0) && Shape(Mkdir(s, path).0)
    ensures Unique(Mkdir(s, path).0) <==> Search(s, ROOT, path) == None
  {
    var d, c := Search(s, ROOT, DirName(path)).value, BaseName(path);
    MkdirUniqueIff(s, path);
    CheckedName(s, d, path);
    SearchBreakup(s, path, d);
    UniqueVisible(s);
    MkdirVisibleIff(s, path);
    forall x
      ensures !Shows(s, d, x, c)
    {
      if Shows(s, d, x, c) { OnlyOneShows(s, d, x, c); }
    }
  }

  // ---------------------------------------------------------------- rename

  lemma MoveShows(s: State, e: nat, p: nat, name: string, n: nat, x: nat, c: string)
    requires Shape(s) && e in s.ents && e != ROOT && p in s.ents && p != e && n in s.ents
    ensures var t := Move(s, e, p, name);
      && n in t.ents
      && (Shows(t, n, x, c) <==> if x == e then n == p && !s.ents[e].hidden && c == name else Shows(s, n, x, c))
  {
    MoveEntry(s, e, p, name, n);
    UnlinkChain(s, e, n);
    MoveEntry(s, e, p, name, e);
    if x in s.ents { MoveEntry(s, e, p, name, x); }
  }

  lemma MoveVisibleAt(s: State, e: nat, p: nat, name: string, n: nat)
    requires Shape(s) && VisibleUnique(s) && e in s.ents && e != ROOT && p in s.ents && p != e && n in s.ents
    requires !s.ents[e].hidden
    ensures n in Move(s, e, p, name).ents
    ensures VisibleAt(Move(s, e, p, name), n) <==> n != p || forall x :: x != e ==> !Shows(s, p, x, name)
  {
    var t := Move(s, e, p, name);
    assert VisibleAt(s, n);
    MoveEntry(s, e, p, name, n);
    forall x, c
      ensures Shows(t, n, x, c) <==> if x == e then n == p && c == name else Shows(s, n, x, c)
    {
      MoveShows(s, e, p, name, n, x, c);
    }
    if n == p && exists x :: x != e && Shows(s, p, x, name) {
      var x :| x != e && Shows(s, p, x, name);
      assert Shows(t, p, x, name) && Shows(t, p, e, name);
    }
  }

  /** A successful rename does exactly when no other visible child of the new directory has the new name. */
  lemma RenameVisibleIff(s: State, oldpath: string, newpath: string)
    requires Tree(s) && VisibleUnique(s) && RenameLegal(s, oldpath, newpath) && Rename(s, oldpath, newpath).1 == Done
    ensures VisibleUnique(Rename(s, oldpath, newpath).0)
       <==> forall x :: x != Search(s, ROOT, oldpath).value ==>
              !Shows(s, Search(s, ROOT, DirName(newpath)).value, x, BaseName(newpath))
  {
    var p, e := Search(s, ROOT, DirName(newpath)).value, Search(s, ROOT, oldpath).value;
    var t := Move(s, e, p, BaseName(newpath));
    MoveVisibleAt(s, e, p, BaseName(newpath), p);
    forall n | n in t.ents && n != p
      ensures VisibleAt(t, n)
    {
      MoveVisibleAt(s, e, p, BaseName(newpath), n);
    }
  }
}
