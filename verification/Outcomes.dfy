/** What each operation on the filesystem answers, and what exactly it changes. */
module Outcomes {
  import opened Wrappers
  import opened Text
  import opened Schemas
  import opened Globs
  import opened Namespace
  import opened Relinking
  import opened Creating
  import opened Operations
  import opened Neatness
  import opened Observing
  import opened Patterns

  /** The path finds n, which is not hidden. */
  predicate Sees(s: State, path: string, n: nat)
    requires Shape(s)
  {
    Search(s, ROOT, path) == Some(n) && !s.ents[n].hidden
  }

  /** The path finds nothing, or a hidden entry. */
  predicate SeesNothing(s: State, path: string)
    requires Shape(s)
  {
    forall n :: n in s.ents ==> !Sees(s, path, n)
  }

  lemma SeesNothingIff(s: State, path: string)
    requires Shape(s)
    ensures SeesNothing(s, path) <==> Search(s, ROOT, path) == None || s.ents[Search(s, ROOT, path).value].hidden
  {
    var r := Search(s, ROOT, path);
    if r.Some? && !s.ents[r.value].hidden { assert Sees(s, path, r.value); }
  }

  /** The entries of s and t are the same but for n's. */
  ghost predicate Only(s: State, t: State, n: nat) {
    t.ents.Keys == s.ents.Keys && t.nextId == s.nextId && forall k :: k in s.ents && k != n ==> t.ents[k] == s.ents[k]
  }

  // ---------------------------------------------------------------- rmdir

  /** rmdir takes out a visible SUBDIR, refuses anything else it sees, and does not see what is hidden. */
  lemma RmdirIff(s: State, path: string)
    requires Tree(s) && RmdirLegal(s, path)
    ensures Rmdir(s, path).1 == Done <==> exists e :: Sees(s, path, e) && s.ents[e].schema.kind == Subdir
    ensures Rmdir(s, path).1 == Failed(ENOTDIR) <==> exists e :: Sees(s, path, e) && s.ents[e].schema.kind != Subdir
    ensures Rmdir(s, path).1 == Failed(ENOENT) <==> SeesNothing(s, path)
    ensures Rmdir(s, path).1 != Done ==> Rmdir(s, path).0 == s
  {
    SeesNothingIff(s, path);
    var r := Search(s, ROOT, path);
    if r.Some? && !s.ents[r.value].hidden { assert Sees(s, path, r.value); }
  }

  // ---------------------------------------------------------------- mkdir

  /** mkdir works in a visible OBJECT, when the lookup of its name from there finds nothing. */
  lemma MkdirIff(s: State, path: string)
    requires Shape(s)
    ensures var r, d, c := Mkdir(s, path).1, DirName(path), BaseName(path);
      && (r == Failed(ENOENT) <==> SeesNothing(s, d))
      && (r == Failed(EPERM) <==> exists n :: Sees(s, d, n) && s.ents[n].schema.kind != Object)
      && (r == Failed(EEXIST) <==>
            exists n :: Sees(s, d, n) && s.ents[n].schema.kind == Object && Search(s, n, c).Some?)
      && (r == Done <==> exists n :: Sees(s, d, n) && s.ents[n].schema.kind == Object && Search(s, n, c) == None)
    ensures Mkdir(s, path).1 != Done ==> Mkdir(s, path).0 == s
  {
    var r := Search(s, ROOT, DirName(path));
    SeesNothingIff(s, DirName(path));
    if r.Some? && !s.ents[r.value].hidden { assert Sees(s, DirName(path), r.value); }
  }

  /** On success the directory gets the new entry in front; no other entry changes. */
  lemma MkdirChanges(s: State, path: string)
    requires Shape(s) && Mkdir(s, path).1 == Done
    ensures var t, d := Mkdir(s, path).0, Search(s, ROOT, DirName(path)).value;
      && (forall n :: n in s.ents ==>
            n in t.ents && t.ents[n] == s.ents[n].(kids := (if n == d then [s.nextId] else []) + s.ents[n].kids))
      && s.nextId in t.ents && t.ents[s.nextId].value == Empty && t.ents[s.nextId].par == d
      && t.ents[s.nextId].schema == Node(BaseName(path), Subdir, s.ents[d].schema.children, s.ents[d].schema.next)
  {
    var t, d := Mkdir(s, path).0, Search(s, ROOT, DirName(path)).value;
    var x := MkdirTemplate(s.ents[d].schema, BaseName(path));
    forall n | n in s.ents
      ensures n in t.ents && t.ents[n] == s.ents[n].(kids := (if n == d then [s.nextId] else []) + s.ents[n].kids)
    {
      GraftEntry(s, d, x, x.name, NewEntry(x, d, []).hidden, n);
      assert [] + s.ents[n].kids == s.ents[n].kids;
    }
    GraftEntry(s, d, x, x.name, NewEntry(x, d, []).hidden, d);
  }

  // ---------------------------------------------------------------- unlink

  /** unlink hides a visible link and takes its target; it refuses anything else it sees. */
  lemma UnlinkIff(s: State, path: string)
    requires Shape(s)
    ensures Unlinked(s, path).1 == Done <==> exists n :: Sees(s, path, n) && s.ents[n].schema.kind == Link
    ensures Unlinked(s, path).1 == Failed(EPERM) <==> exists n :: Sees(s, path, n) && s.ents[n].schema.kind != Link
    ensures Unlinked(s, path).1 == Failed(ENOENT) <==> SeesNothing(s, path)
    ensures Unlinked(s, path).1 != Done ==> Unlinked(s, path).0 == s
    ensures Unlinked(s, path).1 == Done ==> var t, n := Unlinked(s, path).0, Search(s, ROOT, path).value;
      Only(s, t, n) && t.ents[n] == s.ents[n].(hidden := true, value := Empty)
  {
    SeesNothingIff(s, path);
    var r := Search(s, ROOT, path);
    if r.Some? && !s.ents[r.value].hidden { assert Sees(s, path, r.value); }
  }

  // ---------------------------------------------------------------- create and symlink

  /** create unhides the file find-or-create comes to; it refuses directories and links, found or made. */
  lemma CreateIff(s: State, path: string)
    requires Shape(s)
    ensures var (t, m) := Make(s, ROOT, path); var (u, r) := Create(s, path);
      && (r == Failed(ENOENT) <==> m == None)
      && (r == Failed(EPERM) <==> m.Some? && t.ents[m.value].schema.kind in {Link, Object, Subdir})
      && (r == Done <==> m.Some? && t.ents[m.value].schema.kind !in {Link, Object, Subdir})
      && (r != Done ==> u == t)
      && (r == Done ==> Only(t, u, m.value) && u.ents[m.value] == t.ents[m.value].(hidden := false))
  {
  }

  /** symlink unhides the link find-or-create comes to and sets its target. */
  lemma SymlinkIff(s: State, target: string, path: string)
    requires Shape(s)
    ensures var (t, m) := Make(s, ROOT, path); var (u, r) := Symlink(s, target, path);
      && (r == Failed(ENOENT) <==> m == None)
      && (r == Failed(EPERM) <==> m.Some? && t.ents[m.value].schema.kind != Link)
      && (r == Done <==> m.Some? && t.ents[m.value].schema.kind == Link)
      && (r != Done ==> u == t)
      && (r == Done ==>
            Only(t, u, m.value) && u.ents[m.value] == t.ents[m.value].(hidden := false, value := Target(target)))
  {
  }

  /** x is the only child of d that could stop the scan for c, and it does not have that name. */
  ghost predicate SoleTaker(s: State, d: nat, x: nat, c: string)
    requires Shape(s) && d in s.ents
  {
    && x in s.ents[d].kids && x in s.ents && s.ents[x].name != c
    && forall y :: y in s.ents[d].kids && y != x && y in s.ents ==> !Takes(s.ents[y].name, c)
  }

  lemma {:induction false} SoleProbe(s: State, ids: seq<nat>, x: nat, c: string)
    requires (forall i :: 0 <= i < |ids| ==> ids[i] in s.ents) && x in s.ents && s.ents[x].name != c
    requires forall i :: 0 <= i < |ids| && ids[i] != x ==> !Takes(s.ents[ids[i]].name, c)
    ensures Probe(s, ids, c) == if x in ids && FnMatch(s.ents[x].name, c) then Pattern(x) else Miss
  {
    if ids != [] { SoleProbe(s, ids[1..], x, c); }
  }

  lemma SoleStep(s: State, d: nat, x: nat, c: string)
    requires Shape(s) && d in s.ents && Ordinary(c) && SoleTaker(s, d, x, c)
    ensures MakeStep(s, d, c) ==
      if FnMatch(s.ents[x].name, c) then (Graft(s, d, s.ents[x].schema, c, false), Some(s.nextId)) else (s, None)
  {
    assert Chain(s.ents, s.ents[d].kids, d);
    var ids := s.ents[d].kids;
    forall i | 0 <= i < |ids| && ids[i] != x
      ensures !Takes(s.ents[ids[i]].name, c)
    {
      assert ids[i] in ids;
    }
    SoleProbe(s, ids, x, c);
  }

  /**
   * Below a file pattern with one star: create makes a file under exactly the names that start with what
   * is before the star and end with what is behind it.
   */
  lemma CreateByPatternIff(s: State, path: string, d: nat, x: nat, a: string, b: string)
    requires Neat(s) && Ordinary(BaseName(path)) && Search(s, ROOT, DirName(path)) == Some(d) && d in s.ents
    requires SoleTaker(s, d, x, BaseName(path)) && s.ents[x].name == a + "*" + b && HasSetter(s.ents[x].schema.kind)
    requires WithoutSpecial(a) && WithoutSpecial(b)
    ensures var c, (t, r) := BaseName(path), Create(s, path);
      var fits := Between(a, b, c) && ("." <= c ==> "." <= a);
      && r == (if fits then Done else Failed(ENOENT))
      && (!fits ==> t == s)
      && (fits ==> s.nextId !in s.ents && s.nextId in t.ents && t.ents[s.nextId].name == c && t.ents[s.nextId].par == d
                   && t.ents[s.nextId].schema == s.ents[x].schema && !t.ents[s.nextId].hidden)
  {
    var c := BaseName(path);
    MakeInDirectory(s, path, d);
    SoleStep(s, d, x, c);
    StarNames(a, b, c);
    var g := Graft(s, d, s.ents[x].schema, c, false);
    GraftEntry(s, d, s.ents[x].schema, c, false, d);
  }

  // ---------------------------------------------------------------- rename

  /** rename needs a visible new parent, a new name the lookup from there does not find, and a visible entry. */
  lemma RenameIff(s: State, oldpath: string, newpath: string)
    requires Shape(s)
    ensures var r, d, c := Rename(s, oldpath, newpath).1, DirName(newpath), BaseName(newpath);
      && (r == Failed(ENOTDIR) <==> SeesNothing(s, d))
      && (r == Failed(EEXIST) <==> exists p :: Sees(s, d, p) && Search(s, p, c).Some?)
      && (r == Failed(ENOENT) <==> SeesNothing(s, oldpath) && exists p :: Sees(s, d, p) && Search(s, p, c) == None)
      && (r == Done <==> (exists e :: Sees(s, oldpath, e)) && exists p :: Sees(s, d, p) && Search(s, p, c) == None)
    ensures Rename(s, oldpath, newpath).1 != Done ==> Rename(s, oldpath, newpath).0 == s
  {
    var p, e := Search(s, ROOT, DirName(newpath)), Search(s, ROOT, oldpath);
    SeesNothingIff(s, DirName(newpath));
    SeesNothingIff(s, oldpath);
    if p.Some? && !s.ents[p.value].hidden { assert Sees(s, DirName(newpath), p.value); }
    if e.Some? && !s.ents[e.value].hidden { assert Sees(s, oldpath, e.value); }
  }

  /** Taking an entry off a chain leaves the others in their order. */
  lemma {:induction false} WithoutAt(ids: seq<nat>, e: nat) returns (k: nat)
    requires e in ids
    ensures k < |ids| && ids[k] == e && Without(ids, e) == ids[..k] + ids[k + 1..]
  {
    if ids[0] == e {
      k := 0;
    } else {
      k := WithoutAt(ids[1..], e);
      k := k + 1;
      assert [ids[0]] + ids[1..][..k - 1] == ids[..k] && ids[1..][k..] == ids[k + 1..];
    }
  }

  /** A rename changes the moved entry's name and parent, takes it off one chain and puts it in front of another. */
  lemma RenameChanges(s: State, oldpath: string, newpath: string, n: nat)
    requires Tree(s) && RenameLegal(s, oldpath, newpath) && Rename(s, oldpath, newpath).1 == Done && n in s.ents
    ensures var t, e, p := Rename(s, oldpath, newpath).0, Search(s, ROOT, oldpath).value,
                           Search(s, ROOT, DirName(newpath)).value;
      && t.ents.Keys == s.ents.Keys && e in s.ents
      && t.ents[n] == s.ents[n].(kids := t.ents[n].kids, name := if n == e then BaseName(newpath) else s.ents[n].name,
                                 par := if n == e then p else s.ents[n].par)
      && (n == p ==> t.ents[n].kids != [] && t.ents[n].kids[0] == e)
      && (forall x :: x in t.ents[n].kids <==> if x == e then n == p else x in s.ents[n].kids)
      && (n != p && n != s.ents[e].par ==> t.ents[n].kids == s.ents[n].kids)
  {
    var e, p := Search(s, ROOT, oldpath).value, Search(s, ROOT, DirName(newpath)).value;
    MoveEntry(s, e, p, BaseName(newpath), n);
    UnlinkChain(s, e, n);
  }

  /** The chain it leaves keeps the order of the others. */
  lemma RenameLeaves(s: State, oldpath: string, newpath: string) returns (k: nat)
    requires Tree(s) && RenameLegal(s, oldpath, newpath) && Rename(s, oldpath, newpath).1 == Done
    requires var e := Search(s, ROOT, oldpath).value; s.ents[e].par != Search(s, ROOT, DirName(newpath)).value
    ensures var t, e := Rename(s, oldpath, newpath).0, Search(s, ROOT, oldpath).value;
      var f := s.ents[e].par;
      && f in s.ents && f in t.ents && k < |s.ents[f].kids| && s.ents[f].kids[k] == e
      && t.ents[f].kids == s.ents[f].kids[..k] + s.ents[f].kids[k + 1..]
  {
    var e, p := Search(s, ROOT, oldpath).value, Search(s, ROOT, DirName(newpath)).value;
    var f := s.ents[e].par;
    MoveEntry(s, e, p, BaseName(newpath), f);
    k := WithoutAt(s.ents[f].kids, e);
  }

  // ---------------------------------------------------------------- write

  /** The entry a write command sets. */
  ghost predicate Writes(s: State, path: string, n: nat)
    requires Shape(s)
  {
    Sees(s, path, n) && s.ents[n].schema.kind !in {Link, Object, Subdir}
  }

  /** write sets the value of the visible file its path finds, and nothing else; the path still finds it. */
  lemma WriteSets(s: State, path: string, data: string, setter: Setter, n: nat)
    requires Tree(s) && Writes(s, path, n)
    ensures var t := WriteAt(s, path, data, setter);
      && Only(s, t, n) && t.ents[n] == s.ents[n].(value := setter(s.ents[n].schema.kind, s.ents[n].value, data))
      && Tree(t) && Writes(t, path, n)
  {
    SetSearch(s, n, s.ents[n].(value := setter(s.ents[n].schema.kind, s.ents[n].value, data)), path);
  }

  /** Anything else write leaves alone. */
  lemma WriteElsewhere(s: State, path: string, data: string, setter: Setter)
    requires Shape(s) && forall n :: n in s.ents ==> !Writes(s, path, n)
    ensures WriteAt(s, path, data, setter) == s
  {
    var r := Search(s, ROOT, path);
    if r.Some? { assert !Writes(s, path, r.value); }
  }

  // ---------------------------------------------------------------- as steps of a run

  /** After the step unlink, a link that was visible is hidden; after symlink, a link reads as its target. */
  lemma LinkSteps(s: State, path: string, target: string, setter: Setter)
    requires Tree(s)
    ensures Readlink(s, path).Is? ==>
      Shape(Apply(s, OpUnlink(path), setter)) && SeesNothing(Apply(s, OpUnlink(path), setter), path)
    ensures Apart(Tokens(path, '/')) && Symlink(s, target, path).1 == Done ==>
      && Shape(Apply(s, OpSymlink(target, path), setter))
      && Readlink(Apply(s, OpSymlink(target, path), setter), path) == Observing.Is(target)
  {
    if Readlink(s, path).Is? {
      var n := Search(s, ROOT, path).value;
      var e := s.ents[n].(hidden := true, value := Empty);
      SetSearch(s, n, e, path);
      SeesNothingIff(Apply(s, OpUnlink(path), setter), path);
    }
    if Apart(Tokens(path, '/')) && Symlink(s, target, path).1 == Done { SymlinkReadlink(s, target, path); }
  }

  // ---------------------------------------------------------------- readlink

  /** readlink answers with the target of a visible link, and with an error otherwise. */
  lemma ReadlinkIff(s: State, path: string)
    requires Shape(s)
    ensures Readlink(s, path) == NoEntry <==> SeesNothing(s, path)
    ensures Readlink(s, path) == NoLink <==> exists n :: Sees(s, path, n) && s.ents[n].schema.kind != Link
    ensures forall g :: (Readlink(s, path) == Observing.Is(g) <==>
      exists n :: Sees(s, path, n) && s.ents[n].schema.kind == Link && s.ents[n].value == Target(g))
  {
    SeesNothingIff(s, path);
    var r := Search(s, ROOT, path);
    if r.Some? && !s.ents[r.value].hidden { assert Sees(s, path, r.value); }
  }
}
