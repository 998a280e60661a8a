/** Which entries schemafs_free releases when rmdir takes a subtree out. */
module Freeing {
  import opened Text
  import opened Schemas
  import opened Namespace
  import opened Grafting
  import opened Relinking
  import opened Creating
  import opened Instantiation
  import opened Operations
  import opened Neatness
  import opened Runs

  ghost function Room(s: State, n: nat): nat
    requires Tree(s) && n in s.ents
  {
    LevelsOf(s).1 - Level(s, n)
  }

  lemma KidRoom(s: State, p: nat, i: nat)
    requires Tree(s) && p in s.ents && i < |s.ents[p].kids|
    ensures s.ents[p].kids[i] in s.ents && s.ents[s.ents[p].kids[i]].par == p && s.ents[p].kids[i] != ROOT
    ensures Room(s, s.ents[p].kids[i]) < Room(s, p)
  {
    assert Chain(s.ents, s.ents[p].kids, p);
  }

  /** The order of schemafs_free on an entry without a `next`: its children first, if it is a directory. */
  ghost function FreeEntry(s: State, e: nat): seq<nat>
    requires Tree(s) && e in s.ents
    decreases Room(s, e), |s.ents[e].kids| + 1
  {
    (if IsDir(s.ents[e].schema.kind) then FreeKids(s, e, 0) else []) + [e]
  }

  /** The order on p's chain from its i-th entry on: the rest of the chain before the entry itself. */
  ghost function FreeKids(s: State, p: nat, i: nat): seq<nat>
    requires Tree(s) && p in s.ents && i <= |s.ents[p].kids|
    decreases Room(s, p), |s.ents[p].kids| - i
  {
    if i == |s.ents[p].kids| then []
    else KidRoom(s, p, i); FreeKids(s, p, i + 1) + FreeEntry(s, s.ents[p].kids[i])
  }

  /** The order on any list of siblings. */
  ghost function FreeSeq(s: State, ids: seq<nat>): seq<nat>
    requires Tree(s) && forall i :: 0 <= i < |ids| ==> ids[i] in s.ents
  {
    if ids == [] then [] else FreeSeq(s, ids[1..]) + FreeEntry(s, ids[0])
  }

  lemma {:induction false} FreeKidsIsSeq(s: State, p: nat, i: nat)
    requires Tree(s) && p in s.ents && i <= |s.ents[p].kids|
    ensures forall k :: i <= k < |s.ents[p].kids| ==> s.ents[p].kids[k] in s.ents
    ensures FreeKids(s, p, i) == FreeSeq(s, s.ents[p].kids[i..])
    decreases |s.ents[p].kids| - i
  {
    if i < |s.ents[p].kids| {
      KidRoom(s, p, i);
      FreeKidsIsSeq(s, p, i + 1);
      assert s.ents[p].kids[i..][1..] == s.ents[p].kids[i + 1..];
    }
  }

  /** x lies in the subtree of one of p's children from the i-th on. */
  ghost predicate BelowFrom(s: State, x: nat, p: nat, i: nat)
    requires Tree(s) && p in s.ents
  {
    && x in s.ents
    && exists k :: i <= k < |s.ents[p].kids| && s.ents[p].kids[k] in s.ents && Under(s, x, s.ents[p].kids[k])
  }

  /** Below a directory lie exactly the subtrees of its children. */
  lemma {:induction false} UnderSplits(s: State, x: nat, p: nat)
    requires Tree(s) && p in s.ents && x in s.ents
    ensures Under(s, x, p) <==> x == p || BelowFrom(s, x, p, 0)
    decreases Level(s, x)
  {
    if x != p && Under(s, x, p) {
      var q := s.ents[x].par;
      UnderSplits(s, q, p);
      if q == p {
        var k :| 0 <= k < |s.ents[p].kids| && s.ents[p].kids[k] == x;
        assert Under(s, x, s.ents[p].kids[k]);
      } else {
        var k :| 0 <= k < |s.ents[p].kids| && s.ents[p].kids[k] in s.ents && Under(s, q, s.ents[p].kids[k]);
        assert Under(s, x, s.ents[p].kids[k]);
      }
    }
    if BelowFrom(s, x, p, 0) {
      var k :| 0 <= k < |s.ents[p].kids| && s.ents[p].kids[k] in s.ents && Under(s, x, s.ents[p].kids[k]);
      KidRoom(s, p, k);
      assert Under(s, s.ents[p].kids[k], p);
      UnderTransitive(s, x, s.ents[p].kids[k], p);
    }
  }

  /** The subtrees of two siblings have nothing in common. */
  lemma SiblingsApart(s: State, x: nat, a: nat, b: nat)
    requires Tree(s) && x in s.ents && a in s.ents && b in s.ents && a != ROOT && b != ROOT
    requires s.ents[a].par == s.ents[b].par && Under(s, x, a) && Under(s, x, b)
    ensures a == b
  {
    UnderComparable(s, x, a, b);
    if a != b {
      var lo, hi := if Under(s, a, b) then a else b, if Under(s, a, b) then b else a;
      assert Under(s, s.ents[lo].par, hi);
      UnderDeeper(s, s.ents[lo].par, hi);
    }
  }

  lemma NoDupJoin(a: seq<nat>, b: seq<nat>)
    requires NoDup(a) && NoDup(b) && forall x :: x in a ==> x !in b
    ensures NoDup(a + b)
  {
    var c := a + b;
    forall i, j | 0 <= i < j < |c|
      ensures c[i] != c[j]
    {
      if i < |a| <= j { assert a[i] in a && b[j - |a|] in b; }
    }
  }

  /** In e's subtree only directories have children. */
  ghost predicate DirsBelow(s: State, e: nat)
    requires Tree(s) && e in s.ents
  {
    forall f {:trigger Under(s, f, e)} ::
      f in s.ents && Under(s, f, e) && s.ents[f].kids != [] ==> IsDir(s.ents[f].schema.kind)
  }

  lemma DirsBelowKid(s: State, p: nat, c: nat)
    requires Tree(s) && p in s.ents && c in s.ents && c != ROOT && s.ents[c].par == p && DirsBelow(s, p)
    ensures DirsBelow(s, c)
  {
    forall f | f in s.ents && Under(s, f, c) && s.ents[f].kids != []
      ensures IsDir(s.ents[f].schema.kind)
    {
      assert Under(s, c, p);
      UnderTransitive(s, f, c, p);
    }
  }

  lemma BelowFromStep(s: State, x: nat, p: nat, i: nat)
    requires Tree(s) && p in s.ents && x in s.ents && i < |s.ents[p].kids| && s.ents[p].kids[i] in s.ents
    ensures BelowFrom(s, x, p, i) <==> BelowFrom(s, x, p, i + 1) || Under(s, x, s.ents[p].kids[i])
  {
  }

  lemma LaterApart(s: State, x: nat, p: nat, i: nat)
    requires Tree(s) && p in s.ents && x in s.ents && i < |s.ents[p].kids|
    requires s.ents[p].kids[i] in s.ents && Under(s, x, s.ents[p].kids[i])
    ensures !BelowFrom(s, x, p, i + 1)
  {
    var ids := s.ents[p].kids;
    forall k | i + 1 <= k < |ids| && ids[k] in s.ents
      ensures !Under(s, x, ids[k])
    {
      KidRoom(s, p, i);
      KidRoom(s, p, k);
      assert Chain(s.ents, ids, p);
      if Under(s, x, ids[k]) { SiblingsApart(s, x, ids[i], ids[k]); }
    }
  }

  lemma JoinChain(s: State, p: nat, i: nat, a: seq<nat>, b: seq<nat>)
    requires Tree(s) && p in s.ents && i < |s.ents[p].kids| && s.ents[p].kids[i] in s.ents
    requires NoDup(a) && NoDup(b)
    requires forall x {:trigger x in a} :: x in a <==> BelowFrom(s, x, p, i + 1)
    requires forall x {:trigger x in b} :: x in b <==> x in s.ents && Under(s, x, s.ents[p].kids[i])
    ensures NoDup(a + b)
    ensures forall x {:trigger x in a + b} :: x in a + b <==> BelowFrom(s, x, p, i)
  {
    forall x | x in a
      ensures x !in b
    {
      if x in b { LaterApart(s, x, p, i); }
    }
    NoDupJoin(a, b);
    forall x {:trigger x in a + b}
      ensures x in a + b <==> BelowFrom(s, x, p, i)
    {
      if x in s.ents { BelowFromStep(s, x, p, i); }
    }
  }

  /** Freeing an entry releases its whole subtree, each entry exactly once, and nothing else. */
  lemma {:induction false} FreesSubtree(s: State, e: nat)
    requires Tree(s) && e in s.ents && DirsBelow(s, e)
    ensures NoDup(FreeEntry(s, e))
    ensures forall x {:trigger x in FreeEntry(s, e)} :: x in FreeEntry(s, e) <==> x in s.ents && Under(s, x, e)
    decreases Room(s, e), |s.ents[e].kids| + 1
  {
    FreesChain(s, e, 0);
    assert Under(s, e, e);
    var inner := if IsDir(s.ents[e].schema.kind) then FreeKids(s, e, 0) else [];
    forall x | x in s.ents
      ensures Under(s, x, e) <==> x == e || x in inner
    {
      UnderSplits(s, x, e);
    }
    if BelowFrom(s, e, e, 0) {
      var k :| 0 <= k < |s.ents[e].kids| && s.ents[e].kids[k] in s.ents && Under(s, e, s.ents[e].kids[k]);
      KidRoom(s, e, k);
      UnderDeeper(s, e, s.ents[e].kids[k]);
    }
    NoDupJoin(inner, [e]);
  }

  lemma {:induction false} FreesChain(s: State, p: nat, i: nat)
    requires Tree(s) && p in s.ents && i <= |s.ents[p].kids| && DirsBelow(s, p)
    ensures NoDup(FreeKids(s, p, i))
    ensures forall x {:trigger x in FreeKids(s, p, i)} :: x in FreeKids(s, p, i) <==> BelowFrom(s, x, p, i)
    decreases Room(s, p), |s.ents[p].kids| - i
  {
    if i < |s.ents[p].kids| {
      var c := s.ents[p].kids[i];
      KidRoom(s, p, i);
      FreesChain(s, p, i + 1);
      DirsBelowKid(s, p, c);
      FreesSubtree(s, c);
      JoinChain(s, p, i, FreeKids(s, p, i + 1), FreeEntry(s, c));
    }
  }

  // ---------------------------------------------------------------- the order

  /** What lies below the k-th child does not lie below anything under a later one. */
  lemma KidNotBelowLater(s: State, p: nat, k: nat, x: nat, y: nat)
    requires Tree(s) && p in s.ents && k < |s.ents[p].kids| && s.ents[p].kids[k] in s.ents && DirsBelow(s, p)
    requires x in FreeEntry(s, s.ents[p].kids[k]) && y in FreeKids(s, p, k + 1)
    ensures x in s.ents && y in s.ents && !Under(s, x, y)
  {
    var c := s.ents[p].kids[k];
    KidRoom(s, p, k);
    DirsBelowKid(s, p, c);
    FreesSubtree(s, c);
    FreesChain(s, p, k + 1);
    if Under(s, x, y) {
      var m :| k + 1 <= m < |s.ents[p].kids| && s.ents[p].kids[m] in s.ents && Under(s, y, s.ents[p].kids[m]);
      UnderTransitive(s, x, y, s.ents[p].kids[m]);
      LaterApart(s, x, p, k);
      assert BelowFrom(s, x, p, k + 1);
    }
  }

  /** Nothing is freed before what its pointers lead to: children before their directory. */
  lemma {:induction false} FreesChildrenFirst(s: State, e: nat, i: nat, j: nat)
    requires Tree(s) && e in s.ents && DirsBelow(s, e) && i < |FreeEntry(s, e)| && j < |FreeEntry(s, e)|
    requires FreeEntry(s, e)[i] in s.ents && FreeEntry(s, e)[i] != FreeEntry(s, e)[j]
    requires FreeEntry(s, e)[j] in s.ents && Under(s, FreeEntry(s, e)[i], FreeEntry(s, e)[j])
    ensures i < j
    decreases Room(s, e), |s.ents[e].kids| + 1
  {
    var q := FreeEntry(s, e);
    FreesSubtree(s, e);
    assert q[j] in q && q[|q| - 1] == e;
    if j < |q| - 1 {
      if i == |q| - 1 {
        UnderDeeper(s, e, q[j]);
        UnderDeeper(s, q[j], e);
      } else {
        FreesKidsFirst(s, e, 0, i, j);
      }
    }
  }

  lemma {:induction false} FreesKidsFirst(s: State, p: nat, k: nat, i: nat, j: nat)
    requires Tree(s) && p in s.ents && k <= |s.ents[p].kids| && DirsBelow(s, p)
    requires i < |FreeKids(s, p, k)| && j < |FreeKids(s, p, k)|
    requires FreeKids(s, p, k)[i] in s.ents && FreeKids(s, p, k)[i] != FreeKids(s, p, k)[j]
    requires FreeKids(s, p, k)[j] in s.ents && Under(s, FreeKids(s, p, k)[i], FreeKids(s, p, k)[j])
    ensures i < j
    decreases Room(s, p), |s.ents[p].kids| - k
  {
    var c, left, q := s.ents[p].kids[k], FreeKids(s, p, k + 1), FreeKids(s, p, k);
    KidRoom(s, p, k);
    DirsBelowKid(s, p, c);
    assert q == left + FreeEntry(s, c);
    if i < |left| && j < |left| {
      FreesKidsFirst(s, p, k + 1, i, j);
    } else if i >= |left| && j >= |left| {
      FreesChildrenFirst(s, c, i - |left|, j - |left|);
    } else if i >= |left| {
      KidNotBelowLater(s, p, k, q[i], q[j]);
    }
  }

  /** Later siblings are freed, with all below them, before earlier ones. */
  lemma {:induction false} FreesLaterFirst(s: State, p: nat, k: nat, m: nat)
    requires Tree(s) && p in s.ents && k <= m < |s.ents[p].kids|
    ensures s.ents[p].kids[m] in s.ents
    ensures FreeKids(s, p, m + 1) + FreeEntry(s, s.ents[p].kids[m]) <= FreeKids(s, p, k)
    decreases m - k
  {
    KidRoom(s, p, m);
    KidRoom(s, p, k);
    if k < m { FreesLaterFirst(s, p, k + 1, m); }
  }

  /** Below a non-directory nothing is freed, so the whole subtree is exactly when only directories have children. */
  lemma {:induction false} FreedParents(s: State, e: nat, x: nat)
    requires Tree(s) && e in s.ents && x in FreeEntry(s, e)
    ensures x in s.ents && (x == e || (x != ROOT && IsDir(s.ents[s.ents[x].par].schema.kind)))
    decreases Room(s, e), |s.ents[e].kids| + 1
  {
    if x != e { FreedParentsChain(s, e, 0, x); }
  }

  lemma {:induction false} FreedParentsChain(s: State, p: nat, i: nat, x: nat)
    requires Tree(s) && p in s.ents && i <= |s.ents[p].kids| && x in FreeKids(s, p, i)
    requires IsDir(s.ents[p].schema.kind)
    ensures x in s.ents && x != ROOT && IsDir(s.ents[s.ents[x].par].schema.kind)
    decreases Room(s, p), |s.ents[p].kids| - i
  {
    KidRoom(s, p, i);
    if x in FreeKids(s, p, i + 1) {
      FreedParentsChain(s, p, i + 1, x);
    } else {
      FreedParents(s, s.ents[p].kids[i], x);
    }
  }

  /** Freeing releases exactly the subtree if and only if only directories have children in it. */
  lemma FreesSubtreeIff(s: State, e: nat)
    requires Tree(s) && e in s.ents
    ensures (forall x :: x in FreeEntry(s, e) <==> x in s.ents && Under(s, x, e)) <==> DirsBelow(s, e)
  {
    if DirsBelow(s, e) {
      FreesSubtree(s, e);
    } else {
      var f :| f in s.ents && Under(s, f, e) && s.ents[f].kids != [] && !IsDir(s.ents[f].schema.kind);
      var x := s.ents[f].kids[0];
      KidRoom(s, f, 0);
      assert Under(s, x, e);
      if x in FreeEntry(s, e) {
        FreedParents(s, e, x);
        UnderDeeper(s, f, x);
        assert false;
      }
    }
  }

  // ---------------------------------------------------------------- only directories have children, over runs

  lemma InitialDirsOnly(t: Template)
    ensures DirsOnly(Initial(t))
  {
    InitialInstance(t);
    forall n | n in Initial(t).ents && Initial(t).ents[n].kids != []
      ensures IsDir(Initial(t).ents[n].schema.kind)
    {
      assert Instance(Initial(t).ents, n);
    }
  }

  lemma GraftDirsOnly(s: State, p: nat, t: Template, c: string, hidden: bool)
    requires Shape(s) && DirsOnly(s) && p in s.ents && IsDir(s.ents[p].schema.kind)
    ensures DirsOnly(Graft(s, p, t, c, hidden))
  {
    var g := Graft(s, p, t, c, hidden);
    forall n | n in g.ents && g.ents[n].kids != []
      ensures IsDir(g.ents[n].schema.kind)
    {
      GraftDomain(s, p, t, c, hidden, n);
      if n in s.ents {
        GraftEntry(s, p, t, c, hidden, n);
      } else {
        FillOneForested(t, p, s.nextId);
        FillOneInstance(t, p, s.nextId);
        assert Instance(FillOne(t, p, s.nextId), n);
      }
    }
  }

  lemma MakeStepDirsOnly(s: State, n: nat, c: string)
    requires Shape(s) && DirsOnly(s) && n in s.ents
    ensures DirsOnly(MakeStep(s, n, c).0)
  {
    if Probe(s, s.ents[n].kids, c).Pattern? {
      GraftDirsOnly(s, n, s.ents[Probe(s, s.ents[n].kids, c).id].schema, c, false);
    }
  }

  lemma {:induction false} MakeWalkDirsOnly(s: State, n: nat, q: seq<string>)
    requires Shape(s) && DirsOnly(s) && n in s.ents
    ensures DirsOnly(MakeWalk(s, n, q).0)
    decreases |q|
  {
    if q != [] {
      MakeStepShape(s, n, q[0]);
      MakeStepDirsOnly(s, n, q[0]);
      var (t, m) := MakeStep(s, n, q[0]);
      if m.Some? { MakeWalkDirsOnly(t, m.value, q[1..]); }
    }
  }

  lemma MkdirDirsOnly(s: State, path: string)
    requires Shape(s) && DirsOnly(s)
    ensures DirsOnly(Mkdir(s, path).0)
  {
    if Mkdir(s, path).1.Done? {
      var d := Search(s, ROOT, DirName(path)).value;
      var t := MkdirTemplate(s.ents[d].schema, BaseName(path));
      GraftDirsOnly(s, d, t, t.name, NewEntry(t, d, []).hidden);
    }
  }

  lemma SetDirsOnly(s: State, n: nat, e: Entry)
    requires DirsOnly(s) && n in s.ents
    requires e == s.ents[n].(hidden := e.hidden, value := e.value)
    ensures DirsOnly(s.(ents := s.ents[n := e]))
  {
  }

  lemma MakeDirsOnly(s: State, path: string)
    requires Shape(s) && DirsOnly(s)
    ensures DirsOnly(Make(s, ROOT, path).0)
  {
    MakeWalkDirsOnly(s, ROOT, Tokens(path, '/'));
  }

  lemma CreateDirsOnly(s: State, path: string)
    requires Shape(s) && DirsOnly(s)
    ensures DirsOnly(Create(s, path).0)
  {
    MakeDirsOnly(s, path);
    var (t, r) := Make(s, ROOT, path);
    if r.Some? { SetDirsOnly(t, r.value, t.ents[r.value].(hidden := false)); }
  }

  lemma SymlinkDirsOnly(s: State, target: string, path: string)
    requires Shape(s) && DirsOnly(s)
    ensures DirsOnly(Symlink(s, target, path).0)
  {
    MakeDirsOnly(s, path);
    var (t, r) := Make(s, ROOT, path);
    if r.Some? { SetDirsOnly(t, r.value, t.ents[r.value].(hidden := false, value := Target(target))); }
  }

  lemma MoveDirsOnly(s: State, e: nat, p: nat, name: string)
    requires Shape(s) && DirsOnly(s) && e in s.ents && e != ROOT && p in s.ents && p != e
    requires IsDir(s.ents[p].schema.kind)
    ensures DirsOnly(Move(s, e, p, name))
  {
    forall n | n in Move(s, e, p, name).ents && Move(s, e, p, name).ents[n].kids != []
      ensures IsDir(Move(s, e, p, name).ents[n].schema.kind)
    {
      MoveEntry(s, e, p, name, n);
    }
  }

  lemma RenameDirsOnly(s: State, o: string, n: string)
    requires Tree(s) && DirsOnly(s) && RenameLegal(s, o, n)
    ensures DirsOnly(Rename(s, o, n).0)
  {
    if Rename(s, o, n).1.Done? {
      MoveDirsOnly(s, Search(s, ROOT, o).value, Search(s, ROOT, DirName(n)).value, BaseName(n));
    }
  }

  lemma UnlinkedDirsOnly(s: State, path: string)
    requires Shape(s) && DirsOnly(s)
    ensures DirsOnly(Unlinked(s, path).0)
  {
    var r := Search(s, ROOT, path);
    if r.Some? { SetDirsOnly(s, r.value, s.ents[r.value].(hidden := true, value := Empty)); }
  }

  lemma WriteDirsOnly(s: State, path: string, data: string, setter: Setter)
    requires Shape(s) && DirsOnly(s)
    ensures DirsOnly(WriteAt(s, path, data, setter))
  {
    var r := Search(s, ROOT, path);
    if r.Some? {
      var e := s.ents[r.value];
      SetDirsOnly(s, r.value, e.(value := setter(e.schema.kind, e.value, data)));
    }
  }

  lemma CutDirsOnly(s: State, e: nat)
    requires Tree(s) && DirsOnly(s) && e in s.ents && e != ROOT
    ensures DirsOnly(Cut(s, e))
  {
  }

  lemma ApplyDirsOnly(s: State, op: Op, setter: Setter)
    requires Tree(s) && DirsOnly(s) && Legal(s, op)
    ensures DirsOnly(Apply(s, op, setter))
  {
    match op
    case OpMkdir(path) => MkdirDirsOnly(s, path);
    case OpCreate(path) => CreateDirsOnly(s, path);
    case OpSymlink(target, path) => SymlinkDirsOnly(s, target, path);
    case OpRename(o, n) => RenameDirsOnly(s, o, n);
    case OpRmdir(path) =>
      if Rmdir(s, path).1.Done? { CutDirsOnly(s, Search(s, ROOT, path).value); }
    case OpUnlink(path) => UnlinkedDirsOnly(s, path);
    case OpWrite(path, data) => WriteDirsOnly(s, path, data, setter);
  }

  lemma {:induction false} RunDirsOnly(s: State, ops: seq<Op>, setter: Setter)
    requires Tree(s) && DirsOnly(s) && LegalRun(s, ops, setter)
    ensures DirsOnly(Run(s, ops, setter))
    decreases |ops|
  {
    if ops != [] {
      ApplyTree(s, ops[0], setter);
      ApplyDirsOnly(s, ops[0], setter);
      RunDirsOnly(Apply(s, ops[0], setter), ops[1..], setter);
    }
  }

  /**
   * In every run, renames included, a successful rmdir takes out exactly the entries schemafs_free
   * then releases, each once.
   */
  lemma RunFreesWhatItCuts(t: Template, ops: seq<Op>, setter: Setter, path: string)
    requires Tree(Initial(t)) && LegalRun(Initial(t), ops, setter)
    requires var s := Run(Initial(t), ops, setter); RmdirLegal(s, path) && Rmdir(s, path).1 == Done
    ensures var s := Run(Initial(t), ops, setter);
      var freed := FreeEntry(s, Search(s, ROOT, path).value);
      NoDup(freed) && forall x {:trigger x in freed} :: x in freed <==> x in s.ents && x !in Rmdir(s, path).0.ents
  {
    InitialDirsOnly(t);
    RunDirsOnly(Initial(t), ops, setter);
    var s := Run(Initial(t), ops, setter);
    FreesSubtree(s, Search(s, ROOT, path).value);
  }
}
