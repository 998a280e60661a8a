/** What rename and rmdir do to path lookup. */
module Renaming {
  import opened Wrappers
  import opened Namespace
  import opened Relinking
  import opened Lookup

  /** The walk q from n never enters e. */
  ghost predicate Avoids(s: State, n: nat, q: seq<string>, e: nat)
    requires Shape(s) && n in s.ents
    decreases |q|
  {
    q == [] || (Step(s, n, q[0]).Some? ==>
      Step(s, n, q[0]).value != e && Avoids(s, Step(s, n, q[0]).value, q[1..], e))
  }

  /** The walk q from n never asks the directory p for the name c. */
  ghost predicate NeverAsks(s: State, n: nat, q: seq<string>, p: nat, c: string)
    requires Shape(s) && n in s.ents
    decreases |q|
  {
    q == [] || (!(n == p && q[0] == c) &&
      (Step(s, n, q[0]).Some? ==> NeverAsks(s, Step(s, n, q[0]).value, q[1..], p, c)))
  }

  ghost predicate Movable(s: State, e: nat, p: nat, name: string) {
    && Tree(s) && e in s.ents && e != ROOT && p in s.ents && !Under(s, p, e)
    && Ordinary(name)
  }

  /** The new name is not taken in the target directory. */
  ghost predicate Free(s: State, p: nat, name: string)
    requires Shape(s) && p in s.ents
  {
    FindName(s, s.ents[p].kids, name) == None
  }

  // ---------------------------------------------------------------- paths that avoid the moved subtree

  /** Searching a chain after a move finds what it found before, unless that was e or the name is e's new one. */
  lemma MoveFind(s: State, e: nat, p: nat, name: string, n: nat, c: string)
    requires Shape(s) && e in s.ents && e != ROOT && p in s.ents && p != e && n in s.ents
    requires FindName(s, s.ents[n].kids, c) != Some(e) && !(n == p && c == name)
    ensures Shape(Move(s, e, p, name))
    ensures FindName(Move(s, e, p, name), Move(s, e, p, name).ents[n].kids, c) == FindName(s, s.ents[n].kids, c)
  {
    var s' := Move(s, e, p, name);
    var ids, u := s.ents[n].kids, Unlink(s.ents, e)[n].kids;
    MoveShape(s, e, p, name);
    UnlinkChain(s, e, n);
    assert Chain(s.ents, ids, n);
    FindNameWithout(s, ids, e, c);
    assert u == if n == s.ents[e].par then Without(ids, e) else ids;
    forall i | 0 <= i < |u|
      ensures u[i] in s.ents && u[i] in s'.ents && s.ents[u[i]].name == s'.ents[u[i]].name
    {
      assert u[i] in u;
      MoveEntry(s, e, p, name, u[i]);
    }
    FindNameSame(s, s', u, c);
    MoveEntry(s, e, p, name, n);
    MoveEntry(s, e, p, name, e);
    if n == p {
      assert ([e] + u)[1..] == u;
    }
  }

  lemma MoveStepOutside(s: State, e: nat, p: nat, name: string, n: nat, c: string)
    requires Movable(s, e, p, name) && n in s.ents && n != e
    requires Step(s, n, c) != Some(e) && !(n == p && c == name)
    ensures Shape(Move(s, e, p, name))
    ensures Step(Move(s, e, p, name), n, c) == Step(s, n, c)
  {
    MoveShape(s, e, p, name);
    MoveEntry(s, e, p, name, n);
    if c != ".." && c != "." {
      MoveFind(s, e, p, name, n, c);
    }
  }

  /** Every path under neither the old nor the new place resolves as before. */
  lemma {:induction false} RenameElsewhere(s: State, e: nat, p: nat, name: string, n: nat, q: seq<string>)
    requires Movable(s, e, p, name) && n in s.ents && n != e
    requires Avoids(s, n, q, e) && NeverAsks(s, n, q, p, name)
    ensures Shape(Move(s, e, p, name))
    ensures Resolve(Move(s, e, p, name), n, q) == Resolve(s, n, q)
    decreases |q|
  {
    MoveShape(s, e, p, name);
    if q != [] {
      MoveStepOutside(s, e, p, name, n, q[0]);
      if Step(s, n, q[0]).Some? {
        RenameElsewhere(s, e, p, name, Step(s, n, q[0]).value, q[1..]);
      }
    }
  }

  // ---------------------------------------------------------------- paths inside the moved subtree

  lemma MoveStepInside(s: State, e: nat, p: nat, name: string, n: nat, c: string)
    requires Movable(s, e, p, name) && n in s.ents && Under(s, n, e) && c != ".."
    ensures Shape(Move(s, e, p, name))
    ensures Step(Move(s, e, p, name), n, c) == Step(s, n, c)
    ensures Step(s, n, c).Some? ==> Under(s, Step(s, n, c).value, e)
  {
    MoveShape(s, e, p, name);
    MoveEntry(s, e, p, name, n);
    if c != "." {
      FindNameMember(s, n, c);
      if FindName(s, s.ents[n].kids, c) == Some(e) {
        UnderDeeper(s, n, e);
        assert false;
      }
      MoveFind(s, e, p, name, n, c);
    }
  }

  lemma {:induction false} RenameInside(s: State, e: nat, p: nat, name: string, n: nat, q: seq<string>)
    requires Movable(s, e, p, name) && n in s.ents && Under(s, n, e) && Plain(q)
    ensures Shape(Move(s, e, p, name))
    ensures Resolve(Move(s, e, p, name), n, q) == Resolve(s, n, q)
    decreases |q|
  {
    MoveShape(s, e, p, name);
    if q != [] {
      MoveStepInside(s, e, p, name, n, q[0]);
      if Step(s, n, q[0]).Some? {
        RenameInside(s, e, p, name, Step(s, n, q[0]).value, q[1..]);
      }
    }
  }

  // ---------------------------------------------------------------- the two paths of a rename

  /** A ".."-free walk to an entry outside e's subtree stays outside. */
  lemma {:induction false} PlainAvoids(s: State, n: nat, q: seq<string>, e: nat)
    requires Tree(s) && n in s.ents && e in s.ents && Plain(q)
    requires Resolve(s, n, q).Some? && !Under(s, Resolve(s, n, q).value, e)
    ensures Avoids(s, n, q, e)
    decreases |q|
  {
    if q != [] {
      var m := Step(s, n, q[0]).value;
      PlainGoesDown(s, m, q[1..]);
      PlainAvoids(s, m, q[1..], e);
    }
  }

  /** A walk that succeeds never asks for a name that is not there. */
  lemma {:induction false} SuccessNeverAsks(s: State, n: nat, q: seq<string>, p: nat, c: string)
    requires Shape(s) && n in s.ents && p in s.ents && Ordinary(c) && Free(s, p, c)
    requires Resolve(s, n, q).Some?
    ensures NeverAsks(s, n, q, p, c)
    decreases |q|
  {
    if q != [] { SuccessNeverAsks(s, Step(s, n, q[0]).value, q[1..], p, c); }
  }

  lemma RenameKeepsDirectory(s: State, e: nat, p: nat, name: string, d: seq<string>, t: nat)
    requires Movable(s, e, p, name) && Free(s, p, name) && t in s.ents && !Under(s, t, e)
    requires Plain(d) && Resolve(s, ROOT, d) == Some(t)
    ensures Shape(Move(s, e, p, name))
    ensures Resolve(Move(s, e, p, name), ROOT, d) == Some(t)
  {
    PlainAvoids(s, ROOT, d, e);
    SuccessNeverAsks(s, ROOT, d, p, name);
    RenameElsewhere(s, e, p, name, ROOT, d);
  }

  /** Whatever a ".."-free suffix found below the entry, it finds below the entry's new path. */
  lemma RenameNewPath(s: State, e: nat, p: nat, name: string, d: seq<string>, q: seq<string>)
    requires Movable(s, e, p, name) && Free(s, p, name)
    requires Plain(d) && Resolve(s, ROOT, d) == Some(p) && Plain(q)
    ensures Shape(Move(s, e, p, name))
    ensures Resolve(Move(s, e, p, name), ROOT, d + [name] + q) == Resolve(s, e, q)
  {
    var s' := Move(s, e, p, name);
    RenameKeepsDirectory(s, e, p, name, d, p);
    ResolveAppend(s', ROOT, d + [name], q);
    ResolveAppend(s', ROOT, d, [name]);
    assert s'.ents[p].kids[0] == e;
    assert Step(s', p, name) == Some(e);
    assert Resolve(s', p, [name]) == Some(e);
    RenameInside(s, e, p, name, e, q);
  }

  /** A sibling has another name. */
  lemma OthersDiffer(s: State, e: nat, x: nat)
    requires Shape(s) && Unique(s) && e in s.ents && e != ROOT && x != e
    requires s.ents[e].par in s.ents && x in s.ents[s.ents[e].par].kids
    ensures x in s.ents && s.ents[x].name != s.ents[e].name
  {
    var ids := s.ents[s.ents[e].par].kids;
    assert Chain(s.ents, ids, s.ents[e].par);
    assert DistinctNames(s, ids);
    var i :| 0 <= i < |ids| && ids[i] == x;
    var j :| 0 <= j < |ids| && ids[j] == e;
  }

  /** No entry left in or moved to the old directory has the old name. */
  lemma OldNameTaken(s: State, e: nat, p: nat, name: string, x: nat)
    requires Movable(s, e, p, name) && Free(s, p, name) && Unique(s)
    requires s.ents[e].par in s.ents && s.ents[e].par in Move(s, e, p, name).ents
    requires x in Move(s, e, p, name).ents[s.ents[e].par].kids
    ensures x in Move(s, e, p, name).ents && Move(s, e, p, name).ents[x].name != s.ents[e].name
  {
    var o := s.ents[e].par;
    UnlinkChain(s, e, o);
    MoveEntry(s, e, p, name, o);
    assert Chain(s.ents, s.ents[o].kids, o);
    assert x == e || x in Unlink(s.ents, e)[o].kids;
    if x == e {
      FindChild(s, e);
      MoveEntry(s, e, p, name, e);
    } else {
      OthersDiffer(s, e, x);
      MoveEntry(s, e, p, name, x);
    }
  }

  lemma OldNameGone(s: State, e: nat, p: nat, name: string)
    requires Movable(s, e, p, name) && Free(s, p, name) && Unique(s) && OrdinaryNames(s)
    ensures Shape(Move(s, e, p, name))
    ensures Step(Move(s, e, p, name), s.ents[e].par, s.ents[e].name) == None
  {
    var s', o := Move(s, e, p, name), s.ents[e].par;
    MoveShape(s, e, p, name);
    MoveEntry(s, e, p, name, o);
    var ids := s'.ents[o].kids;
    forall i | 0 <= i < |ids|
      ensures ids[i] in s'.ents && s'.ents[ids[i]].name != s.ents[e].name
    {
      OldNameTaken(s, e, p, name, ids[i]);
    }
  }

  /** The old path, with any suffix, no longer resolves. */
  lemma RenameOldPath(s: State, e: nat, p: nat, name: string, d: seq<string>, q: seq<string>)
    requires Movable(s, e, p, name) && Free(s, p, name) && Unique(s) && OrdinaryNames(s)
    requires Plain(d) && Resolve(s, ROOT, d) == Some(s.ents[e].par)
    ensures Shape(Move(s, e, p, name))
    ensures Resolve(Move(s, e, p, name), ROOT, d + [s.ents[e].name] + q) == None
  {
    var s', o, c := Move(s, e, p, name), s.ents[e].par, s.ents[e].name;
    if Under(s, o, e) { UnderDeeper(s, o, e); assert false; }
    RenameKeepsDirectory(s, e, p, name, d, o);
    FindChild(s, e);
    OldNameGone(s, e, p, name);
    ResolveAppend(s', ROOT, d + [c], q);
    ResolveAppend(s', ROOT, d, [c]);
    assert Resolve(s', o, [c]) == None;
  }

  /** Every ".."-free path falls under one of the three cases above. */
  lemma {:induction false} RenameCases(s: State, e: nat, p: nat, name: string, n: nat, q: seq<string>)
    requires Movable(s, e, p, name) && n in s.ents && n != e && Plain(q)
    ensures (Avoids(s, n, q, e) && NeverAsks(s, n, q, p, name))
         || (exists i :: 0 <= i < |q| && q[i] == name && Resolve(s, n, q[..i]) == Some(p))
         || (exists i :: 0 <= i < |q| && q[i] == s.ents[e].name && Resolve(s, n, q[..i]) == Some(s.ents[e].par))
    decreases |q|
  {
    if q != [] {
      assert Resolve(s, n, q[..0]) == Some(n);
      if n == p && q[0] == name {
      } else if Step(s, n, q[0]) == Some(e) {
        FindNameMember(s, n, q[0]);
      } else if Step(s, n, q[0]).Some? {
        var m := Step(s, n, q[0]).value;
        var w := q[1..];
        RenameCases(s, e, p, name, m, w);
        forall i | 0 <= i < |w|
          ensures q[i + 1] == w[i] && Resolve(s, n, q[..i + 1]) == Resolve(s, m, w[..i])
        {
          assert q[..i + 1][1..] == w[..i];
        }
        if !(Avoids(s, n, q, e) && NeverAsks(s, n, q, p, name)) {
          if i :| 0 <= i < |w| && w[i] == name && Resolve(s, m, w[..i]) == Some(p) {
            assert q[i + 1] == name && Resolve(s, n, q[..i + 1]) == Some(p);
          } else {
            var i :| 0 <= i < |w| && w[i] == s.ents[e].name && Resolve(s, m, w[..i]) == Some(s.ents[e].par);
            assert q[i + 1] == s.ents[e].name && Resolve(s, n, q[..i + 1]) == Some(s.ents[e].par);
          }
        }
      }
    }
  }

  // ---------------------------------------------------------------- sibling names

  lemma UnlinkDistinct(s: State, e: nat, n: nat)
    requires Shape(s) && Unique(s) && e in s.ents && e != ROOT && n in s.ents
    ensures var ids := Unlink(s.ents, e)[n].kids;
      (forall i :: 0 <= i < |ids| ==> ids[i] in s.ents) && DistinctNames(s, ids)
  {
    UnlinkChain(s, e, n);
    var ids, prev := Unlink(s.ents, e)[n].kids, s.ents[n].kids;
    assert Chain(s.ents, prev, n);
    assert DistinctNames(s, prev);
    forall i | 0 <= i < |ids|
      ensures ids[i] in s.ents
    {
      assert ids[i] in ids;
    }
    forall i, j | 0 <= i < j < |ids|
      ensures s.ents[ids[i]].name != s.ents[ids[j]].name
    {
      assert ids[i] in ids && ids[j] in ids && ids[i] != ids[j];
      var a :| 0 <= a < |prev| && prev[a] == ids[i];
      var b :| 0 <= b < |prev| && prev[b] == ids[j];
    }
  }

  lemma MoveDistinct(s: State, e: nat, p: nat, name: string, n: nat)
    requires Shape(s) && Unique(s) && e in s.ents && e != ROOT && p in s.ents && p != e && n in s.ents
    requires forall x :: x in s.ents[p].kids && x != e && x in s.ents ==> s.ents[x].name != name
    ensures Shape(Move(s, e, p, name))
    ensures DistinctNames(Move(s, e, p, name), Move(s, e, p, name).ents[n].kids)
  {
    var s' := Move(s, e, p, name);
    var u, ids := Unlink(s.ents, e)[n].kids, s'.ents[n].kids;
    MoveShape(s, e, p, name);
    UnlinkChain(s, e, n);
    UnlinkDistinct(s, e, n);
    MoveEntry(s, e, p, name, n);
    MoveEntry(s, e, p, name, e);
    forall i | 0 <= i < |u|
      ensures u[i] in s.ents && u[i] in s'.ents && s'.ents[u[i]].name == s.ents[u[i]].name
      ensures n == p ==> s.ents[u[i]].name != name
    {
      assert u[i] in u;
      MoveEntry(s, e, p, name, u[i]);
    }
    DistinctKept(s, s', u, e);
  }

  /** An entry of the target directory that has the name clashes with the moved one. */
  lemma MoveClash(s: State, e: nat, p: nat, name: string, x: nat)
    requires Shape(s) && e in s.ents && e != ROOT && p in s.ents && p != e
    requires x in s.ents[p].kids && x != e && x in s.ents && s.ents[x].name == name
    ensures Shape(Move(s, e, p, name)) && !Unique(Move(s, e, p, name))
  {
    var s' := Move(s, e, p, name);
    MoveShape(s, e, p, name);
    var u := Unlink(s.ents, e)[p].kids;
    UnlinkChain(s, e, p);
    MoveEntry(s, e, p, name, p);
    MoveEntry(s, e, p, name, e);
    MoveEntry(s, e, p, name, x);
    assert x in u;
    var k :| 0 <= k < |u| && u[k] == x;
    assert s'.ents[p].kids[0] == e && s'.ents[p].kids[k + 1] == x;
    assert !DistinctNames(s', s'.ents[p].kids);
  }

  /** A move keeps sibling names distinct exactly when no other entry of the target directory has the name. */
  lemma MoveUniqueIff(s: State, e: nat, p: nat, name: string)
    requires Movable(s, e, p, name) && Unique(s)
    ensures Shape(Move(s, e, p, name))
    ensures Unique(Move(s, e, p, name))
       <==> forall x :: x in s.ents[p].kids && x != e && x in s.ents ==> s.ents[x].name != name
  {
    var s' := Move(s, e, p, name);
    MoveShape(s, e, p, name);
    if forall x :: x in s.ents[p].kids && x != e && x in s.ents ==> s.ents[x].name != name {
      forall n {:trigger s'.ents[n].kids} | n in s'.ents
        ensures DistinctNames(s', s'.ents[n].kids)
      {
        MoveDistinct(s, e, p, name, n);
      }
    } else {
      var x :| x in s.ents[p].kids && x != e && x in s.ents && s.ents[x].name == name;
      MoveClash(s, e, p, name, x);
    }
  }

  // ---------------------------------------------------------------- rmdir

  lemma CutFind(s: State, e: nat, n: nat, c: string)
    requires Tree(s) && e in s.ents && e != ROOT && n in s.ents && !Under(s, n, e)
    requires FindName(s, s.ents[n].kids, c) != Some(e)
    ensures Shape(Cut(s, e)) && n in Cut(s, e).ents
    ensures FindName(Cut(s, e), Cut(s, e).ents[n].kids, c) == FindName(s, s.ents[n].kids, c)
  {
    var s' := Cut(s, e);
    CutShape(s, e);
    UnlinkChain(s, e, n);
    assert Chain(s.ents, s.ents[n].kids, n);
    assert Chain(s'.ents, s'.ents[n].kids, n);
    FindNameWithout(s, s.ents[n].kids, e, c);
    FindNameSame(s, s', s'.ents[n].kids, c);
  }

  lemma CutStep(s: State, e: nat, n: nat, c: string)
    requires Tree(s) && e in s.ents && e != ROOT && n in s.ents && !Under(s, n, e)
    requires Step(s, n, c) != Some(e)
    ensures Shape(Cut(s, e)) && n in Cut(s, e).ents
    ensures Step(Cut(s, e), n, c) == Step(s, n, c)
    ensures Step(s, n, c).Some? ==> !Under(s, Step(s, n, c).value, e)
  {
    CutShape(s, e);
    if c == ".." {
      assert n == ROOT || !Under(s, s.ents[n].par, e);
    } else if c != "." {
      CutFind(s, e, n, c);
      FindNameMember(s, n, c);
    }
  }

  /** Every walk that avoids the removed entry resolves as before. */
  lemma {:induction false} RemoveElsewhere(s: State, e: nat, n: nat, q: seq<string>)
    requires Tree(s) && e in s.ents && e != ROOT && n in s.ents && !Under(s, n, e)
    requires Avoids(s, n, q, e)
    ensures Shape(Cut(s, e)) && n in Cut(s, e).ents
    ensures Resolve(Cut(s, e), n, q) == Resolve(s, n, q)
    decreases |q|
  {
    CutShape(s, e);
    if q != [] {
      CutStep(s, e, n, q[0]);
      if Step(s, n, q[0]).Some? {
        RemoveElsewhere(s, e, Step(s, n, q[0]).value, q[1..]);
      }
    }
  }

  lemma CutNameGone(s: State, e: nat)
    requires Tree(s) && e in s.ents && e != ROOT && Unique(s) && Ordinary(s.ents[e].name)
    ensures Shape(Cut(s, e)) && s.ents[e].par in Cut(s, e).ents
    ensures Step(Cut(s, e), s.ents[e].par, s.ents[e].name) == None
  {
    var s', o, c := Cut(s, e), s.ents[e].par, s.ents[e].name;
    CutShape(s, e);
    if Under(s, o, e) { UnderDeeper(s, o, e); assert false; }
    UnlinkChain(s, e, o);
    var ids := s'.ents[o].kids;
    forall i | 0 <= i < |ids|
      ensures ids[i] in s'.ents && s'.ents[ids[i]].name != c
    {
      assert Chain(s'.ents, ids, o);
      assert ids[i] in ids;
      OthersDiffer(s, e, ids[i]);
    }
  }

  /** No path that entered the removed entry resolves any more. */
  lemma {:induction false} RemovePaths(s: State, e: nat, n: nat, q: seq<string>)
    requires Tree(s) && e in s.ents && e != ROOT && Unique(s) && OrdinaryNames(s)
    requires n in s.ents && !Under(s, n, e)
    ensures Shape(Cut(s, e)) && n in Cut(s, e).ents
    ensures Resolve(Cut(s, e), n, q) == if Avoids(s, n, q, e) then Resolve(s, n, q) else None
    decreases |q|
  {
    CutShape(s, e);
    if q != [] {
      if Step(s, n, q[0]) == Some(e) {
        FindNameMember(s, n, q[0]);
        if q[0] == ".." {
          assert Under(s, n, e);
          assert false;
        }
        CutNameGone(s, e);
      } else {
        CutStep(s, e, n, q[0]);
        if Step(s, n, q[0]).Some? {
          RemovePaths(s, e, Step(s, n, q[0]).value, q[1..]);
        }
      }
    }
  }

  /** The entries left are the earlier ones outside the subtree; only the parent's chain changed. */
  lemma RemoveExactly(s: State, e: nat, n: nat)
    requires Tree(s) && e in s.ents && e != ROOT
    ensures n in Cut(s, e).ents <==> n in s.ents && !Under(s, n, e)
    ensures n in Cut(s, e).ents && n != s.ents[e].par ==> Cut(s, e).ents[n] == s.ents[n]
    ensures n in Cut(s, e).ents ==> Cut(s, e).ents[n] == s.ents[n].(kids := Cut(s, e).ents[n].kids)
    ensures n in Cut(s, e).ents ==> forall x :: x in Cut(s, e).ents[n].kids <==> x in s.ents[n].kids && x != e
  {
    if n in s.ents {
      UnlinkChain(s, e, n);
      assert Chain(s.ents, s.ents[n].kids, n);
    }
  }
}
